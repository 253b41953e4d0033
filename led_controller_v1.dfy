/**
 * The led_controller driver: a periodic work steps a 10-bit LED value by
 * the current mode; sysfs sets the mode (decimal, at most 4) and the value
 * (hexadecimal, below 1024). Every new value is written to the LED register.
 */
module LedControllerV1 {
  import opened Errno
  import opened LedStep

  class LedController {
    /** `priv->value` (`uint16_t`). */
    var value: bv16
    /** `priv->mod` (`uint8_t`). */
    var mod: int
    /** The last value written to the LED register. */
    var leds: bv16

    ghost predicate Valid()
      reads this
    {
      value <= LEDS_MASK && 0 <= mod <= MOD_ROT_RIGHT && leds == value
    }

    /** `led_controller_probe`: value 0, mode INC, LEDs turned off. */
    constructor ()
      ensures Valid() && value == 0 && mod == MOD_INC && leds == 0
    {
      value := 0;
      mod := MOD_INC;
      leds := 0;
    }

    /** `work_handler`: one step by the current mode, written to the LEDs. */
    method WorkHandler()
      requires Valid()
      modifies this
      ensures Valid() && value == Step(old(mod), old(value)) && mod == old(mod)
    {
      value := Step(mod, value);
      leds := value;
    }

    /**
     * `mod_store`: `parsed` is what kstrtou8 made of the text; an error is
     * returned as is, a mode above ROT_RIGHT is refused with -EINVAL.
     */
    method ModStore(count: int, parsed: Parsed) returns (r: int)
      requires Valid() && (parsed.Parsed? ==> 0 <= parsed.value < 256)
      modifies this
      ensures Valid() && value == old(value)
      ensures parsed.ParseError? ==> r == parsed.code && mod == old(mod)
      ensures parsed.Parsed? && parsed.value > MOD_ROT_RIGHT ==> r == -EINVAL && mod == old(mod)
      ensures parsed.Parsed? && parsed.value <= MOD_ROT_RIGHT ==> r == count && mod == parsed.value
    {
      if parsed.ParseError? {
        return parsed.code;
      }
      if parsed.value > MOD_ROT_RIGHT {
        return -EINVAL;
      }
      mod := parsed.value;
      return count;
    }

    /**
     * `value_store`: `parsed` is what kstrtou16 (base 16) made of the text;
     * an error is returned as is, a value of 1024 or more is refused with -EINVAL.
     */
    method ValueStore(count: int, parsed: Parsed) returns (r: int)
      requires Valid() && (parsed.Parsed? ==> 0 <= parsed.value < 0x1_0000)
      modifies this
      ensures Valid() && mod == old(mod)
      ensures parsed.ParseError? ==> r == parsed.code && value == old(value)
      ensures parsed.Parsed? && parsed.value >= 1024 ==> r == -EINVAL && value == old(value)
      ensures parsed.Parsed? && parsed.value < 1024 ==> r == count && value == parsed.value as bv16
    {
      if parsed.ParseError? {
        return parsed.code;
      }
      if parsed.value >= 1024 {
        return -EINVAL;
      }
      value := parsed.value as bv16;
      leds := value;
      return count;
    }
  }

  /** From probe, INC counts 0, 1, 2; switching to DEC comes back down and wraps to 1023. */
  method CountUpAndDown() returns (up: bv16, down: bv16, wrapped: bv16)
    ensures up == 2 && down == 0 && wrapped == LEDS_MASK
  {
    var c := new LedController();
    c.WorkHandler();
    c.WorkHandler();
    up := c.value;
    var r := c.ModStore(2, Parsed(MOD_DEC));
    c.WorkHandler();
    c.WorkHandler();
    down := c.value;
    c.WorkHandler();
    wrapped := c.value;
  }
}
