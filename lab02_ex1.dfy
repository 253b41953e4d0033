/**
 * The second lab's first counter: a `uint8_t` value shown in hexadecimal on
 * the first display, KEY0 counting up and KEY1 counting down modulo 16.
 */
module HexCounterEx1 {
  import opened CTypes
  import opened SevenSeg
  import opened PushButtons
  import opened HexRegisters

  const MIN_VALUE: int := 0
  const MAX_VALUE: int := 0xF

  /**
   * The counter step of `main` as written: `(value - 1) % (MAX_VALUE + 1)`
   * is C's truncating remainder of an `int`, stored back into a `uint8_t`.
   */
  function NextValueAsWritten(value: U8, btn: U8): (r: U8)
    ensures !HasBit(btn, KEY0) && !HasBit(btn, KEY1) ==> r == value
    ensures HasBit(btn, KEY0) ==> r <= MAX_VALUE
  {
    if HasBit(btn, KEY0) then ToU8(CRem(value + 1, MAX_VALUE + 1))
    else if HasBit(btn, KEY1) then ToU8(CRem(value - 1, MAX_VALUE + 1))
    else value
  }

  /** The counter step with the decrement wrapping 0 to 15, as the third exercise does. */
  function NextValue(value: U8, btn: U8): (r: U8)
    ensures !HasBit(btn, KEY0) && !HasBit(btn, KEY1) ==> r == value
    ensures value <= MAX_VALUE ==> r <= MAX_VALUE
  {
    if HasBit(btn, KEY0) then (value + 1) % (MAX_VALUE + 1)
    else if HasBit(btn, KEY1) then (if value == MIN_VALUE then MAX_VALUE else value - 1)
    else value
  }

  /** KEY1 at 0 stores 255, which `int_to_7_seg` shows as a dark display; the next KEY1 gives 14, not 15. */
  lemma DecrementFromZeroLeavesRange()
    ensures NextValueAsWritten(0, KEY1 as U8) == 255
    ensures IntTo7Seg(NextValueAsWritten(0, KEY1 as U8)) == BLANK
    ensures NextValueAsWritten(255, KEY1 as U8) == 14
    ensures NextValueAsWritten(255, KEY0 as U8) == 0
  {
  }

  /** As written the value never leaves 0..15 and 255. */
  lemma AsWrittenValues(value: U8, btn: U8)
    requires value <= MAX_VALUE || value == 255
    ensures var v := NextValueAsWritten(value, btn); v <= MAX_VALUE || v == 255
    ensures 1 <= value <= MAX_VALUE && !HasBit(btn, KEY0) && HasBit(btn, KEY1) ==> NextValueAsWritten(value, btn) == value - 1
  {
  }

  /** Corrected, the value stays within 0..15; KEY0 counts up and KEY1 down, modulo 16, KEY0 first. */
  lemma NextValueCounts(value: U8, btn: U8)
    requires value <= MAX_VALUE
    ensures NextValue(value, btn) <= MAX_VALUE
    ensures HasBit(btn, KEY0) ==> NextValue(value, btn) == if value == MAX_VALUE then MIN_VALUE else value + 1
    ensures !HasBit(btn, KEY0) && HasBit(btn, KEY1) ==> NextValue(value, btn) == if value == MIN_VALUE then MAX_VALUE else value - 1
    ensures !HasBit(btn, KEY0) && !HasBit(btn, KEY1) ==> NextValue(value, btn) == value
  {
  }

  /** Corrected, counting up then down (or down then up) gives the value back. */
  lemma CountingInverse(value: U8)
    requires value <= MAX_VALUE
    ensures NextValue(NextValue(value, KEY0 as U8), KEY1 as U8) == value
    ensures NextValue(NextValue(value, KEY1 as U8), KEY0 as U8) == value
  {
  }

  /** The program's state: the displays, the button poller and `value`. */
  class Counter {
    var display: HexDisplay
    var poller: ButtonPoller
    var value: U8

    /** The displays always show the value. */
    ghost predicate Valid()
      reads this, display, display.regs
    {
      display.Valid() && display.regs[..] == Showing(value)
    }

    /** `main` before its loop: LEDs and displays cleared, 0 shown. */
    constructor ()
      ensures Valid() && value == MIN_VALUE && fresh(display) && fresh(display.regs) && fresh(poller)
      ensures poller.regOldValue == 0
    {
      display := new HexDisplay();
      poller := new ButtonPoller();
      value := MIN_VALUE;
      new;
      display.WriteValue(MIN_VALUE);
    }

    /** One round of the `for (;;)`, with the corrected decrement. */
    method Step(regNew: U8, regReread: U8) returns (btn: U8)
      requires Valid()
      modifies this, poller, display.regs
      ensures Valid() && display == old(display) && poller == old(poller)
      ensures Poll(btn, poller.regOldValue) == PollOnce(old(poller.regOldValue), regNew, regReread)
      ensures value == NextValue(old(value), btn)
      ensures btn == 0 ==> display.regs[..] == old(display.regs[..])
    {
      btn := poller.GetBtnPressed(regNew, regReread);
      Count(btn);
      if btn != 0 {
        display.Show(value);
      }
    }

    /** One round of the `for (;;)` as written. */
    method StepAsWritten(regNew: U8, regReread: U8) returns (btn: U8)
      requires Valid()
      modifies this, poller, display.regs
      ensures Valid() && display == old(display) && poller == old(poller)
      ensures Poll(btn, poller.regOldValue) == PollOnce(old(poller.regOldValue), regNew, regReread)
      ensures value == NextValueAsWritten(old(value), btn)
      ensures btn == 0 ==> display.regs[..] == old(display.regs[..])
    {
      btn := poller.GetBtnPressed(regNew, regReread);
      CountAsWritten(btn);
      if btn != 0 {
        display.Show(value);
      }
    }

    /** The `if`/`else if` on the buttons, with the corrected decrement. */
    method Count(btn: U8)
      modifies this
      ensures value == NextValue(old(value), btn)
      ensures display == old(display) && poller == old(poller)
    {
      if HasBit(btn, KEY0) {
        value := (value + 1) % (MAX_VALUE + 1);
      } else if HasBit(btn, KEY1) {
        value := if value == MIN_VALUE then MAX_VALUE else value - 1;
      }
    }

    /** The `if`/`else if` on the buttons as written. */
    method CountAsWritten(btn: U8)
      modifies this
      ensures value == NextValueAsWritten(old(value), btn)
      ensures display == old(display) && poller == old(poller)
    {
      if HasBit(btn, KEY0) {
        value := ToU8(CRem(value + 1, MAX_VALUE + 1));
      } else if HasBit(btn, KEY1) {
        value := ToU8(CRem(value - 1, MAX_VALUE + 1));
      }
    }
  }

  /**
   * Pressing KEY1 right after start: as written the value becomes 255 and
   * the first display goes dark; corrected it becomes 15 and shows 'F'.
   */
  method DecrementAtStart() returns (asWritten: U8, asWrittenShown: U8, corrected: U8, correctedShown: U8)
    ensures asWritten == 255 && asWrittenShown == BLANK
    ensures corrected == 15 && correctedShown == 0x71
  {
    var c := new Counter();
    var b := c.StepAsWritten(2, 2);
    assert b == 2;
    DecrementFromZeroLeavesRange();
    asWritten := c.value;
    asWrittenShown := c.display.regs[0];
    var d := new Counter();
    var b2 := d.Step(2, 2);
    assert b2 == 2;
    corrected := d.value;
    correctedShown := d.display.regs[0];
  }
}
