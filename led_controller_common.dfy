/**
 * The step both led_controller drivers apply to their 10-bit LED value on
 * every work period. The value is a `uint16_t`: `++` and `--` wrap at 2^16,
 * the shifts are truncated back to 16 bits, and the result is then masked
 * to the ten LEDs.
 */
module LedStep {
  /** Number of LEDs and the mask `(1 << NB_LEDS) - 1`. */
  const NB_LEDS: bv16 := 10
  const LEDS_MASK: bv16 := 0x3FF

  /** The modes of the `mod` attribute. */
  const MOD_NOTHING: int := 0
  const MOD_INC: int := 1
  const MOD_DEC: int := 2
  const MOD_ROT_LEFT: int := 3
  const MOD_ROT_RIGHT: int := 4

  /** The `switch` of `work_handler`: the value after the mode's modification, before masking. */
  function Modified(mod: int, v: bv16): bv16
  {
    if mod == MOD_INC then v + 1
    else if mod == MOD_DEC then v - 1
    else if mod == MOD_ROT_LEFT then (v << 1) | (v >> (NB_LEDS - 1))
    else if mod == MOD_ROT_RIGHT then (v >> 1) | (v << (NB_LEDS - 1))
    else v
  }

  /** One work period: the modification, then `value & LEDS_MASK`. The result always fits the LEDs. */
  function Step(mod: int, v: bv16): (r: bv16)
    ensures r <= LEDS_MASK
  {
    Modified(mod, v) & LEDS_MASK
  }

  /**
   * A 10-bit rotation to the left by multiplication and division (none of
   * which overflows 16 bits below 1024): bit 9 comes back as bit 0.
   */
  function RotateLeft10(v: bv16): bv16
  {
    (2 * v) % 1024 + v / 512
  }

  /** A 10-bit rotation to the right by division: bit 0 comes back as bit 9. */
  function RotateRight10(v: bv16): bv16
  {
    v / 2 + (v % 2) * 512
  }

  /** INC counts up by one, and 1023 goes to 0. */
  lemma StepIncrements(v: bv16)
    requires v <= LEDS_MASK
    ensures v < LEDS_MASK ==> Step(MOD_INC, v) == v + 1
    ensures v == LEDS_MASK ==> Step(MOD_INC, v) == 0
  {
  }

  /** DEC counts down by one, and 0 goes to 1023. */
  lemma StepDecrements(v: bv16)
    requires v <= LEDS_MASK
    ensures v > 0 ==> Step(MOD_DEC, v) == v - 1
    ensures v == 0 ==> Step(MOD_DEC, v) == LEDS_MASK
  {
  }

  /** ROT_LEFT is the 10-bit left rotation. */
  lemma StepRotatesLeft(v: bv16)
    requires v <= LEDS_MASK
    ensures Step(MOD_ROT_LEFT, v) == RotateLeft10(v)
  {
  }

  /** ROT_RIGHT is the 10-bit right rotation. */
  lemma StepRotatesRight(v: bv16)
    requires v <= LEDS_MASK
    ensures Step(MOD_ROT_RIGHT, v) == RotateRight10(v)
  {
  }

  /** The two rotations undo each other on 10-bit values. */
  lemma RotationsInverse(v: bv16)
    requires v <= LEDS_MASK
    ensures Step(MOD_ROT_RIGHT, Step(MOD_ROT_LEFT, v)) == v
    ensures Step(MOD_ROT_LEFT, Step(MOD_ROT_RIGHT, v)) == v
  {
  }

  /** INC and DEC undo each other on 10-bit values. */
  lemma CountingInverse(v: bv16)
    requires v <= LEDS_MASK
    ensures Step(MOD_DEC, Step(MOD_INC, v)) == v
    ensures Step(MOD_INC, Step(MOD_DEC, v)) == v
  {
  }

  /** NOTHING and every mode outside 0..4 leave a 10-bit value as it is. */
  lemma StepKeeps(mod: int, v: bv16)
    requires v <= LEDS_MASK
    requires !(MOD_INC <= mod <= MOD_ROT_RIGHT)
    ensures Step(mod, v) == v
  {
  }
}
