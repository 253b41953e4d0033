/**
 * The four hexadecimal displays of the second lab's counters: a byte
 * register per display, of which the counters only write the first.
 */
module HexRegisters {
  import opened CTypes
  import opened SevenSeg
  import opened Wrappers

  const NB_7_SEG: int := 4

  /** What the displays hold while showing `value` on the first one. */
  function Showing(value: int): (s: seq<U8>)
    ensures |s| == NB_7_SEG && s[1..] == [BLANK, BLANK, BLANK]
    ensures SegToInt(s[0]) == if 0 <= value < 16 then Some(value) else None
  {
    SegRoundTrip(if 0 <= value < 16 then value else 0);
    [IntTo7Seg(value), BLANK, BLANK, BLANK]
  }

  class HexDisplay {
    var regs: array<U8>

    ghost predicate Valid()
      reads this
    {
      regs.Length == NB_7_SEG
    }

    /** The mapped registers, dark as `clear_7_seg` leaves them. */
    constructor ()
      ensures Valid() && fresh(regs) && regs[..] == [BLANK, BLANK, BLANK, BLANK]
    {
      regs := new U8[NB_7_SEG](_ => BLANK);
    }

    /** `clear_7_seg`: every display dark. */
    method Clear()
      requires Valid()
      modifies regs
      ensures Valid() && regs[..] == [BLANK, BLANK, BLANK, BLANK]
    {
      regs[0] := BLANK;
      regs[1] := BLANK;
      regs[2] := BLANK;
      regs[3] := BLANK;
    }

    /** `write_to_7_seg`: the first display shows `value` (its `uint8_t` parameter), the others are unchanged. */
    method WriteValue(value: U8)
      requires Valid()
      modifies regs
      ensures Valid() && regs[..] == old(regs[..])[0 := IntTo7Seg(value)]
    {
      regs[0] := IntTo7Seg(value);
    }

    /** `clear_7_seg` then `write_to_7_seg`: the displays show `value`. */
    method Show(value: U8)
      requires Valid()
      modifies regs
      ensures Valid() && regs[..] == Showing(value)
    {
      Clear();
      WriteValue(value);
    }
  }
}
