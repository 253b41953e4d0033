/**
 * The led_controller driver, fourth version: the same stepping work and
 * sysfs attributes, with the value under a spinlock and the mode atomic,
 * plus a push-button interrupt whose KEY0 copies the ten switches into the
 * value.
 */
module LedControllerV4 {
  import opened CTypes
  import opened Errno
  import opened LedStep
  import opened PushButtons

  /** `(1 << NB_SWITCH) - 1`. */
  const SWITCH_MASK: bv16 := 0x3FF

  class LedController {
    /** `priv->value` (`uint16_t`). */
    var value: bv16
    /** `priv->mod` (`atomic_t`). */
    var mod: int
    /** The last value written to the LED register. */
    var leds: bv16
    /** How many times the edge-capture register was re-armed. */
    var rearms: nat

    ghost predicate Valid()
      reads this
    {
      value <= LEDS_MASK && 0 <= mod <= MOD_ROT_RIGHT && leds == value
    }

    /** `led_controller_probe`: value 0, mode INC, LEDs turned off. */
    constructor ()
      ensures Valid() && value == 0 && mod == MOD_INC && leds == 0 && rearms == 0
    {
      value := 0;
      mod := MOD_INC;
      leds := 0;
      rearms := 0;
    }

    /** `work_handler`: one step by the current mode, written to the LEDs. */
    method WorkHandler()
      requires Valid()
      modifies this
      ensures Valid() && value == Step(old(mod), old(value)) && mod == old(mod) && rearms == old(rearms)
    {
      value := Step(mod, value);
      leds := value;
    }

    /**
     * `irq_handler`: `pressed` is the edge-capture register, `switches` the
     * switch register; KEY0 loads the ten switches into the value and the
     * edge capture is re-armed whatever was pressed.
     */
    method IrqHandler(pressed: U8, switches: bv16)
      requires Valid()
      modifies this
      ensures Valid() && mod == old(mod) && rearms == old(rearms) + 1
      ensures HasBit(pressed, KEY0) ==> value == switches & SWITCH_MASK
      ensures !HasBit(pressed, KEY0) ==> value == old(value)
    {
      if HasBit(pressed, KEY0) {
        value := switches & SWITCH_MASK;
        leds := value;
      }
      rearms := rearms + 1;
    }

    /**
     * `mod_store`: `parsed` is what kstrtou8 made of the text; an error is
     * returned as is, a mode above ROT_RIGHT is refused with -EINVAL.
     */
    method ModStore(count: int, parsed: Parsed) returns (r: int)
      requires Valid() && (parsed.Parsed? ==> 0 <= parsed.value < 256)
      modifies this
      ensures Valid() && value == old(value) && rearms == old(rearms)
      ensures parsed.ParseError? ==> r == parsed.code && mod == old(mod)
      ensures parsed.Parsed? && parsed.value > MOD_ROT_RIGHT ==> r == -EINVAL && mod == old(mod)
      ensures parsed.Parsed? && parsed.value <= MOD_ROT_RIGHT ==> r == count && mod == parsed.value
    {
      if parsed.ParseError? {
        return parsed.code;
      }
      if parsed.value > MOD_ROT_RIGHT {
        return -EINVAL;
      }
      mod := parsed.value;
      return count;
    }

    /**
     * `value_store`: `parsed` is what kstrtou16 (base 16) made of the text;
     * an error is returned as is, a value of 1024 or more is refused with -EINVAL.
     */
    method ValueStore(count: int, parsed: Parsed) returns (r: int)
      requires Valid() && (parsed.Parsed? ==> 0 <= parsed.value < 0x1_0000)
      modifies this
      ensures Valid() && mod == old(mod) && rearms == old(rearms)
      ensures parsed.ParseError? ==> r == parsed.code && value == old(value)
      ensures parsed.Parsed? && parsed.value >= 1024 ==> r == -EINVAL && value == old(value)
      ensures parsed.Parsed? && parsed.value < 1024 ==> r == count && value == parsed.value as bv16
    {
      if parsed.ParseError? {
        return parsed.code;
      }
      if parsed.value >= 1024 {
        return -EINVAL;
      }
      value := parsed.value as bv16;
      leds := value;
      return count;
    }
  }

  /**
   * KEY0 with all sixteen switch bits read as 1 loads 0x3FF; the next INC
   * step wraps it to 0; an interrupt without KEY0 then leaves it at 0.
   */
  method LoadSwitchesThenStep() returns (loaded: bv16, stepped: bv16, ignored: bv16)
    ensures loaded == LEDS_MASK && stepped == 0 && ignored == 0
  {
    var c := new LedController();
    c.IrqHandler(1, 0xFFFF);
    loaded := c.value;
    c.WorkHandler();
    stepped := c.value;
    c.IrqHandler(2, 0x0155);
    ignored := c.value;
  }
}
