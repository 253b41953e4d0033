/**
 * The second lab's third counter, over the UIO device: an `int8_t` value
 * shown in hexadecimal on the first display, KEY0 counting up modulo 16 and
 * KEY1 counting down with 0 wrapping to 15.
 */
module HexCounterEx3 {
  import opened CTypes
  import opened SevenSeg
  import opened PushButtons
  import opened HexRegisters

  const MIN_VALUE: int := 0
  const MAX_VALUE: int := 0xF

  /** The counter step of `main`, in `int8_t` arithmetic. */
  function NextValue(value: I8, btn: U8): (r: I8)
    ensures !HasBit(btn, KEY0) && !HasBit(btn, KEY1) ==> r == value
  {
    if HasBit(btn, KEY0) then ToI8(CRem(value + 1, MAX_VALUE + 1))
    else if HasBit(btn, KEY1) then
      var v := ToI8(value - 1);
      if v < 0 then MAX_VALUE else v
    else value
  }

  /** From 0..15 the value stays in 0..15: 15 goes up to 0 and 0 goes down to 15, KEY0 first. */
  lemma NextValueWraps(value: I8, btn: U8)
    requires MIN_VALUE <= value <= MAX_VALUE
    ensures MIN_VALUE <= NextValue(value, btn) <= MAX_VALUE
    ensures HasBit(btn, KEY0) ==> NextValue(value, btn) == if value == MAX_VALUE then MIN_VALUE else value + 1
    ensures !HasBit(btn, KEY0) && HasBit(btn, KEY1) ==> NextValue(value, btn) == if value == MIN_VALUE then MAX_VALUE else value - 1
    ensures !HasBit(btn, KEY0) && !HasBit(btn, KEY1) ==> NextValue(value, btn) == value
  {
  }

  /** Counting up then down (or down then up) gives the value back. */
  lemma CountingInverse(value: I8)
    requires MIN_VALUE <= value <= MAX_VALUE
    ensures NextValue(NextValue(value, KEY0 as U8), KEY1 as U8) == value
    ensures NextValue(NextValue(value, KEY1 as U8), KEY0 as U8) == value
  {
    NextValueWraps(value, KEY0 as U8);
    NextValueWraps(NextValue(value, KEY0 as U8), KEY1 as U8);
    NextValueWraps(value, KEY1 as U8);
    NextValueWraps(NextValue(value, KEY1 as U8), KEY0 as U8);
  }

  /** The value after the loop has seen the poll results `btns`. */
  function ValueAfter(value: I8, btns: seq<U8>): I8
    decreases |btns|
  {
    if btns == [] then value else NextValue(ValueAfter(value, btns[..|btns| - 1]), btns[|btns| - 1])
  }

  /** Starting from 0, no sequence of polls takes the value out of 0..15. */
  lemma {:induction false} ValueAlwaysInRange(btns: seq<U8>)
    ensures MIN_VALUE <= ValueAfter(MIN_VALUE, btns) <= MAX_VALUE
    decreases |btns|
  {
    if btns != [] {
      ValueAlwaysInRange(btns[..|btns| - 1]);
      NextValueWraps(ValueAfter(MIN_VALUE, btns[..|btns| - 1]), btns[|btns| - 1]);
    }
  }

  /** The program's state: the displays, the button poller and `value`. */
  class Counter {
    var display: HexDisplay
    var poller: ButtonPoller
    var value: I8

    /** The value stays in 0..15 and the displays always show it. */
    ghost predicate Valid()
      reads this, display, display.regs
    {
      display.Valid() && MIN_VALUE <= value <= MAX_VALUE && display.regs[..] == Showing(value)
    }

    /** `main` before its loop: LEDs and displays cleared, 0 shown. */
    constructor ()
      ensures Valid() && value == MIN_VALUE && fresh(display) && fresh(display.regs) && fresh(poller)
      ensures poller.regOldValue == 0
    {
      display := new HexDisplay();
      poller := new ButtonPoller();
      value := MIN_VALUE;
      new;
      display.WriteValue(MIN_VALUE);
    }

    /** One round of the `for (;;)`: poll, count, and redraw when the poll reported something. */
    method Step(regNew: U8, regReread: U8) returns (btn: U8)
      requires Valid()
      modifies this, poller, display.regs
      ensures Valid() && display == old(display) && poller == old(poller)
      ensures Poll(btn, poller.regOldValue) == PollOnce(old(poller.regOldValue), regNew, regReread)
      ensures value == NextValue(old(value), btn)
      ensures btn == 0 ==> display.regs[..] == old(display.regs[..])
    {
      btn := poller.GetBtnPressed(regNew, regReread);
      Count(btn);
      if btn != 0 {
        assert ToU8(value) == value;
        display.Show(ToU8(value));
      }
    }

    /** The `if`/`else if` on the buttons. */
    method Count(btn: U8)
      requires MIN_VALUE <= value <= MAX_VALUE
      modifies this
      ensures value == NextValue(old(value), btn) && MIN_VALUE <= value <= MAX_VALUE
      ensures display == old(display) && poller == old(poller)
    {
      NextValueWraps(value, btn);
      if HasBit(btn, KEY0) {
        value := ToI8(CRem(value + 1, MAX_VALUE + 1));
      } else if HasBit(btn, KEY1) {
        value := ToI8(value - 1);
        if value < 0 {
          value := MAX_VALUE;
        }
      }
    }
  }

  /** KEY1 right after start shows 'F', and KEY0 then brings back '0'. */
  method DownThenUp() returns (down: I8, downShown: U8, up: I8, upShown: U8)
    ensures down == 15 && downShown == 0x71 && up == 0 && upShown == 0x3F
  {
    var c := new Counter();
    var b1 := c.Step(2, 2);
    assert b1 == 2;
    down := c.value;
    downShown := c.display.regs[0];
    var b2 := c.Step(1, 1);
    assert b2 == 1;
    up := c.value;
    upShown := c.display.regs[0];
  }
}
