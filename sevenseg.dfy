/**
 * Seven-segment encoding of the hexadecimal digits shared by the lab
 * programs and the show_number driver (bit 0 = segment a ... bit 6 = g).
 */
module SevenSeg {
  import opened CTypes
  import opened Wrappers

  /** `val_to_hex_7_seg`: the pattern of each digit 0x0 .. 0xF. */
  const HEX_DIGITS: seq<U8> :=
    [0x3F, 0x06, 0x5B, 0x4F, 0x66, 0x6D, 0x7D, 0x07,
     0x7F, 0x6F, 0x77, 0x7C, 0x58, 0x5E, 0x79, 0x71]

  /** A display with no segment lit. */
  const BLANK: U8 := 0

  /** `int_to_7_seg`: the digit's pattern, or a blank display outside 0..15. */
  function IntTo7Seg(i: int): (r: U8)
    ensures 0 <= i < 16 ==> r != BLANK && r < 0x80
    ensures !(0 <= i < 16) ==> r == BLANK
  {
    if 0 <= i < |HEX_DIGITS| then HEX_DIGITS[i] else BLANK
  }

  /** Reads a digit back from a pattern: the first table index at or after `from` showing `seg`. */
  function FindDigit(seg: int, from: nat): (r: Option<int>)
    decreases 16 - from
    ensures r.Some? ==> from <= r.value < 16 && HEX_DIGITS[r.value] == seg
    ensures r.None? ==> forall j :: from <= j < 16 ==> HEX_DIGITS[j] != seg
  {
    if from >= 16 then None
    else if HEX_DIGITS[from] == seg then Some(from)
    else FindDigit(seg, from + 1)
  }

  /** The digit a pattern shows, if any. */
  function SegToInt(seg: int): Option<int>
  {
    FindDigit(seg, 0)
  }

  /** No two digits share a pattern. */
  lemma HexDigitsDistinct(i: int, j: int)
    requires 0 <= i < 16 && 0 <= j < 16 && i != j
    ensures HEX_DIGITS[i] != HEX_DIGITS[j]
  {
  }

  /** Every digit 0..15 is read back from its pattern; a blank display reads as no digit. */
  lemma SegRoundTrip(d: int)
    requires 0 <= d < 16
    ensures SegToInt(IntTo7Seg(d)) == Some(d)
    ensures SegToInt(BLANK) == None
  {
    var r := SegToInt(IntTo7Seg(d));
    assert r.Some? by { assert HEX_DIGITS[d] == IntTo7Seg(d); }
    if r.value != d {
      HexDigitsDistinct(r.value, d);
    }
  }
}

/**
 * `get_btn_pressed` of the lab programs: a poller that remembers the last
 * value of the push-button register (its `static` variable) and reports a
 * value only when the register changed since the previous call.
 */
module PushButtons {
  import opened CTypes

  /** Masks of the four push-buttons in the register. */
  const KEY0: int := 1
  const KEY1: int := 2
  const KEY2: int := 4
  const KEY3: int := 8

  /** The outcome of one poll: what it returns and the remembered register value after it. */
  datatype Poll = Poll(pressed: U8, last: U8)

  /**
   * One poll given the previous register value, the value read first and the
   * value read again (the register is volatile and is read a second time when
   * it changed).
   */
  function PollOnce(previous: U8, regNew: U8, regReread: U8): (p: Poll)
    ensures p.last == regNew
    ensures p.pressed != 0 ==> regNew != previous
    ensures regNew == previous ==> p.pressed == 0
    ensures regNew != previous ==> p.pressed == regReread
  {
    if previous != regNew then Poll(regReread, regNew) else Poll(0, previous)
  }

  /** Holding a button down is reported once: a second poll of the same register value gives 0. */
  lemma HeldButtonReportedOnce(previous: U8, reg: U8)
    requires previous != reg
    ensures PollOnce(previous, reg, reg).pressed == reg
    ensures PollOnce(PollOnce(previous, reg, reg).last, reg, reg).pressed == 0
  {
  }

  class ButtonPoller {
    /** `reg_old_value`, zero before the first call. */
    var regOldValue: U8

    constructor ()
      ensures regOldValue == 0
    {
      regOldValue := 0;
    }

    method GetBtnPressed(regNew: U8, regReread: U8) returns (pressed: U8)
      modifies this
      ensures Poll(pressed, regOldValue) == PollOnce(old(regOldValue), regNew, regReread)
    {
      pressed := 0;
      if regOldValue != regNew {
        regOldValue := regNew;
        pressed := regReread;
      }
    }
  }
}
