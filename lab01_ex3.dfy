/**
 * The first lab's LED chaser: a single LED runs from LED 0 up to LED 9 and
 * back down, one second each, by setting and clearing bits of the 16-bit
 * LED register.
 */
module LedSweep {
  const NB_LEDS: int := 10

  /** The register value with only LED `i` lit, `1 << i`. */
  function Led(i: bv4): bv16
  {
    1 << i
  }

  /** Whether LED `i` is lit in register value `x`. */
  predicate Lit(x: bv16, i: bv4)
  {
    x & Led(i) != 0
  }

  /** `turn_on_led`: the register with bit `led` set. */
  function WithLed(x: bv16, led: bv4): bv16
  {
    x | Led(led)
  }

  /** `turn_off_led`: the register with bit `led` cleared. */
  function WithoutLed(x: bv16, led: bv4): bv16
  {
    x & !Led(led)
  }

  /** Turning an LED on lights it and leaves every other LED as it was. */
  lemma WithLedSetsOnlyThatBit(x: bv16, led: bv4)
    ensures Lit(WithLed(x, led), led)
    ensures WithLed(x, led) & !Led(led) == x & !Led(led)
  {
  }

  /** Turning an LED off darkens it and leaves every other LED as it was. */
  lemma WithoutLedClearsOnlyThatBit(x: bv16, led: bv4)
    ensures !Lit(WithoutLed(x, led), led)
    ensures WithoutLed(x, led) & !Led(led) == x & !Led(led)
  {
  }

  /** What the register holds during each `sleep(1)` of one round of the outer loop. */
  function SweepPattern(): (p: seq<bv16>)
    ensures |p| == 2 * NB_LEDS
  {
    [Led(0), Led(1), Led(2), Led(3), Led(4), Led(5), Led(6), Led(7), Led(8), Led(9),
     Led(9), Led(8), Led(7), Led(6), Led(5), Led(4), Led(3), Led(2), Led(1), Led(0)]
  }

  /** A register value with one LED lit shows that LED and no other. */
  lemma LedLightsOnlyItself(j: bv4, i: bv4)
    ensures Lit(Led(j), i) <==> i == j
  {
  }

  /** Second `k` of a round shows the single LED `SweptLed(k)`. */
  lemma SweepShowsOneLed(k: nat)
    requires k < 2 * NB_LEDS
    ensures SweepPattern()[k] == Led(SweptLed(k) as bv4)
  {
  }

  /** Each round lights exactly one LED at a time: 0 up to 9, then 9 down to 0. */
  lemma SweepOrder(k: nat, i: bv4)
    requires k < 2 * NB_LEDS
    ensures Lit(SweepPattern()[k], i) <==> i as int == SweptLed(k)
  {
    SweepShowsOneLed(k);
    LedLightsOnlyItself(SweptLed(k) as bv4, i);
  }

  /** The recorded seconds of a round grow one LED at a time. */
  lemma SweepStep(k: nat)
    requires k < 2 * NB_LEDS
    ensures SweepPattern()[..k + 1] == SweepPattern()[..k] + [Led(SweptLed(k) as bv4)]
  {
    SweepShowsOneLed(k);
    assert SweepPattern()[..k + 1] == SweepPattern()[..k] + [SweepPattern()[k]];
  }

  /** The LED lit during second `k` of a round. */
  function SweptLed(k: nat): (led: nat)
    requires k < 2 * NB_LEDS
    ensures led < NB_LEDS
  {
    if k < NB_LEDS then k else 2 * NB_LEDS - 1 - k
  }

  /** The LED register. */
  class LedRegister {
    var reg: bv16

    /** `memset(led_register, 0, 2)`: all LEDs off. */
    constructor ()
      ensures reg == 0
    {
      reg := 0;
    }

    method TurnOnLed(led: nat)
      requires led < 16
      modifies this
      ensures reg == WithLed(old(reg), led as bv4)
    {
      reg := reg | (1 << led);
    }

    method TurnOffLed(led: nat)
      requires led < 16
      modifies this
      ensures reg == WithoutLed(old(reg), led as bv4)
    {
      reg := reg & !(1 << led);
    }

    /**
     * One round of the outer `for (;;)`: the two inner loops. `lit` records
     * the register during each second; all LEDs are off again at the end.
     */
    method Sweep() returns (lit: seq<bv16>)
      requires reg == 0
      modifies this
      ensures reg == 0 && lit == SweepPattern()
    {
      lit := [];
      var i := 0;
      while i < NB_LEDS
        invariant 0 <= i <= NB_LEDS && reg == 0
        invariant lit == SweepPattern()[..i]
      {
        TurnOnLed(i);
        assert reg == Led(i as bv4);
        SweepStep(i);
        lit := lit + [reg];
        TurnOffLed(i);
        i := i + 1;
      }
      i := NB_LEDS;
      while i > 0
        invariant 0 <= i <= NB_LEDS && reg == 0
        invariant lit == SweepPattern()[..2 * NB_LEDS - i]
      {
        var led := i - 1;
        TurnOnLed(led);
        assert reg == Led(led as bv4);
        SweepStep(2 * NB_LEDS - i);
        lit := lit + [reg];
        TurnOffLed(led);
        i := i - 1;
      }
    }
  }
}
