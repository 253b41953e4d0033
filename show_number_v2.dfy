/**
 * The show_number driver, second version: numbers written to the device
 * are queued in a KFIFO of 64 `uint32_t` and shown one after the other on
 * six seven-segment digits, whose patterns are packed into a low and a high
 * 32-bit register word; sysfs lists the queue and sets the display delay.
 */
module ShowNumberV2 {
  import opened CTypes
  import opened Errno
  import opened Wrappers
  import opened NumberFilter
  import opened PushButtons
  import SevenSeg

  const FIFO_CAPACITY: int := 64
  const FIFO_TYPE_SIZE: int := 4
  /** `kfifo_alloc(&fifo, 64 * sizeof(FIFO_TYPE))`: a KFIFO of bytes. */
  const FIFO_BYTES: int := FIFO_CAPACITY * FIFO_TYPE_SIZE
  const DEFAULT_DISPLAY_DELAY: int := 1000

  /** 256^i, the weight of byte `i` of a word. */
  function ByteWeight(i: nat): (w: nat)
    ensures w > 0
  {
    if i == 0 then 1 else 256 * ByteWeight(i - 1)
  }

  /**
   * The word whose byte `i` is `bytes[i]`: `word |= bytes[i] << (i * 8)` over
   * the bytes, the shifted bytes never overlapping so that each OR adds.
   */
  function Pack(bytes: seq<U8>): nat
  {
    if bytes == [] then 0
    else Pack(bytes[..|bytes| - 1]) + bytes[|bytes| - 1] * ByteWeight(|bytes| - 1)
  }

  /** The pattern of decimal digit `i` of `n`, `val_to_hex_7_seg[n % 10]` at round `i`. */
  function SegByte(n: nat, i: nat): U8
  {
    SevenSeg.IntTo7Seg(Digit(n, i))
  }

  /** A low register word showing digits `d0` to `d3`, least significant first. */
  function LowerWord(d0: int, d1: int, d2: int, d3: int): nat
  {
    Pack([SevenSeg.IntTo7Seg(d0), SevenSeg.IntTo7Seg(d1), SevenSeg.IntTo7Seg(d2), SevenSeg.IntTo7Seg(d3)])
  }

  /** A high register word showing digits `d4` and `d5`. */
  function HigherWord(d4: int, d5: int): nat
  {
    Pack([SevenSeg.IntTo7Seg(d4), SevenSeg.IntTo7Seg(d5)])
  }

  /** The low register word for `n`: the patterns of its digits 0 to 3. */
  function LowerSeg(n: nat): nat
  {
    LowerWord(Digit(n, 0), Digit(n, 1), Digit(n, 2), Digit(n, 3))
  }

  /** The high register word for `n`: the patterns of its digits 4 and 5. */
  function HigherSeg(n: nat): nat
  {
    HigherWord(Digit(n, 4), Digit(n, 5))
  }

  /** Byte `k` of a register word: `(w >> (k * 8)) & 0xFF`. */
  function ByteAt(w: nat, k: nat): U8
    requires k < 4
  {
    if k == 0 then w % 256
    else if k == 1 then (w / 256) % 256
    else if k == 2 then (w / 65536) % 256
    else (w / 16777216) % 256
  }

  lemma PackFour(a: U8, b: U8, c: U8, d: U8)
    ensures Pack([a, b, c, d]) == a as int + 256 * b + 65536 * c + 16777216 * d
    ensures Pack([a, b]) == a as int + 256 * b
  {
    assert ByteWeight(1) == 256 && ByteWeight(2) == 65536 && ByteWeight(3) == 16777216;
    assert [a, b, c, d][..3] == [a, b, c];
    assert [a, b, c][..2] == [a, b];
    assert [a, b][..1] == [a];
    assert [a][..0] == [];
    assert Pack([a]) == a;
    assert Pack([a, b]) == a as int + 256 * b;
    assert Pack([a, b, c]) == a as int + 256 * b + 65536 * c;
  }

  /** Bytes 0..3 of `a + 256 * b + 65536 * c + 16777216 * d`. */
  lemma ByteAtFour(a: U8, b: U8, c: U8, d: U8)
    ensures var w: nat := a as int + 256 * b + 65536 * c + 16777216 * d;
            ByteAt(w, 0) == a && ByteAt(w, 1) == b && ByteAt(w, 2) == c && ByteAt(w, 3) == d
            && w < 0x1_0000_0000
  {
    var w: int := a as int + 256 * b + 65536 * c + 16777216 * d;
    var w1: int := b as int + 256 * c + 65536 * d;
    var w2: int := c as int + 256 * d;
    assert w / 256 == w1;
    assert w / 65536 == w2;
    assert w / 16777216 == d as int;
  }

  /** Byte i of a low word holds the pattern of digit `di`; the word fits in 32 bits. */
  lemma LowerWordBytes(d0: int, d1: int, d2: int, d3: int)
    ensures var w := LowerWord(d0, d1, d2, d3);
            ByteAt(w, 0) == SevenSeg.IntTo7Seg(d0) && ByteAt(w, 1) == SevenSeg.IntTo7Seg(d1)
            && ByteAt(w, 2) == SevenSeg.IntTo7Seg(d2) && ByteAt(w, 3) == SevenSeg.IntTo7Seg(d3)
            && w < 0x1_0000_0000
  {
    var a, b, c, d := SevenSeg.IntTo7Seg(d0), SevenSeg.IntTo7Seg(d1), SevenSeg.IntTo7Seg(d2), SevenSeg.IntTo7Seg(d3);
    PackFour(a, b, c, d);
    ByteAtFour(a, b, c, d);
  }

  /** Bytes 0 and 1 of a high word hold the patterns of `d4` and `d5`; its top 16 bits are 0. */
  lemma HigherWordBytes(d4: int, d5: int)
    ensures var w := HigherWord(d4, d5);
            ByteAt(w, 0) == SevenSeg.IntTo7Seg(d4) && ByteAt(w, 1) == SevenSeg.IntTo7Seg(d5)
            && w < 0x1_0000
  {
    var a, b := SevenSeg.IntTo7Seg(d4), SevenSeg.IntTo7Seg(d5);
    PackFour(a, b, 0, 0);
    ByteAtFour(a, b, 0, 0);
  }

  /** The decimal digit byte `k` of a register word shows, if it shows one. */
  function DigitShown(w: nat, k: nat): Option<nat>
    requires k < 4
  {
    match SevenSeg.SegToInt(ByteAt(w, k))
    case Some(d) => if 0 <= d < 10 then Some(d) else None
    case None => None
  }

  /** The number six digits spell, least significant first, if each is a decimal digit. */
  function Spelled(d0: Option<nat>, d1: Option<nat>, d2: Option<nat>, d3: Option<nat>,
                   d4: Option<nat>, d5: Option<nat>): Option<nat>
  {
    if d0.Some? && d1.Some? && d2.Some? && d3.Some? && d4.Some? && d5.Some? then
      Some(d0.value + 10 * d1.value + 100 * d2.value + 1000 * d3.value + 10000 * d4.value + 100000 * d5.value)
    else None
  }

  /** The number the two register words show; `None` if a pattern is not a decimal digit. */
  function ReadDisplay(lower: nat, higher: nat): Option<nat>
  {
    Spelled(DigitShown(lower, 0), DigitShown(lower, 1), DigitShown(lower, 2), DigitShown(lower, 3),
            DigitShown(higher, 0), DigitShown(higher, 1))
  }

  /** Two words showing six decimal digits read back as the number those digits spell. */
  lemma WordsRoundTrip(d0: nat, d1: nat, d2: nat, d3: nat, d4: nat, d5: nat)
    requires d0 < 10 && d1 < 10 && d2 < 10 && d3 < 10 && d4 < 10 && d5 < 10
    ensures ReadDisplay(LowerWord(d0, d1, d2, d3), HigherWord(d4, d5))
            == Some(d0 + 10 * d1 + 100 * d2 + 1000 * d3 + 10000 * d4 + 100000 * d5)
  {
    var lower, higher := LowerWord(d0, d1, d2, d3), HigherWord(d4, d5);
    LowerWordBytes(d0, d1, d2, d3);
    HigherWordBytes(d4, d5);
    ByteReadBack(lower, 0, d0);
    ByteReadBack(lower, 1, d1);
    ByteReadBack(lower, 2, d2);
    ByteReadBack(lower, 3, d3);
    ByteReadBack(higher, 0, d4);
    ByteReadBack(higher, 1, d5);
    ReadSpelled(lower, higher, d0, d1, d2, d3, d4, d5);
  }

  /** Six bytes that show decimal digits give the number those digits spell. */
  lemma ReadSpelled(lower: nat, higher: nat, d0: nat, d1: nat, d2: nat, d3: nat, d4: nat, d5: nat)
    requires DigitShown(lower, 0) == Some(d0) && DigitShown(lower, 1) == Some(d1)
    requires DigitShown(lower, 2) == Some(d2) && DigitShown(lower, 3) == Some(d3)
    requires DigitShown(higher, 0) == Some(d4) && DigitShown(higher, 1) == Some(d5)
    ensures ReadDisplay(lower, higher) == Some(d0 + 10 * d1 + 100 * d2 + 1000 * d3 + 10000 * d4 + 100000 * d5)
  {
    assert ReadDisplay(lower, higher) == Spelled(Some(d0), Some(d1), Some(d2), Some(d3), Some(d4), Some(d5));
  }

  /** A byte holding the pattern of decimal digit `d` reads back as `d`. */
  lemma ByteReadBack(w: nat, k: nat, d: nat)
    requires k < 4 && d < 10 && ByteAt(w, k) == SevenSeg.IntTo7Seg(d)
    ensures DigitShown(w, k) == Some(d)
  {
    SevenSeg.SegRoundTrip(d);
  }

  /** The display shows the number modulo 10^6, so any number up to 999999 is read back exactly. */
  lemma DisplayRoundTrip(n: nat)
    ensures ReadDisplay(LowerSeg(n), HigherSeg(n)) == Some(n % 1000000)
  {
    var d0, d1, d2, d3, d4, d5 := Digit(n, 0), Digit(n, 1), Digit(n, 2), Digit(n, 3), Digit(n, 4), Digit(n, 5);
    calc {
      ReadDisplay(LowerSeg(n), HigherSeg(n));
      ReadDisplay(LowerWord(d0, d1, d2, d3), HigherWord(d4, d5));
      == { WordsRoundTrip(d0, d1, d2, d3, d4, d5); }
      Some(d0 + 10 * d1 + 100 * d2 + 1000 * d3 + 10000 * d4 + 100000 * d5);
      == { SixDigits(n); }
      Some(n % 1000000);
    }
  }

  /** Every number the write filter lets through is shown exactly. */
  lemma DisplayShowsNumber(n: nat)
    requires n <= MAX_VALUE
    ensures ReadDisplay(LowerSeg(n), HigherSeg(n)) == Some(n)
  {
    var shown := ReadDisplay(LowerSeg(n), HigherSeg(n));
    DisplayRoundTrip(n);
    SmallMod(n);
    assert shown == Some(n % 1000000);
  }

  lemma SmallMod(n: nat)
    requires n <= MAX_VALUE
    ensures n % 1000000 == n
  {
  }

  /** `display_number`: the two register words for `number`. */
  method DisplayNumber(number: U32) returns (lowerSeg: U32, higherSeg: U32)
    ensures lowerSeg == LowerSeg(number) && higherSeg == HigherSeg(number)
  {
    var hexDigits := DigitPatterns(number);
    var lower := OrShifted(hexDigits, 0, 4);
    var higher := OrShifted(hexDigits, 4, 6);
    assert hexDigits[0..4] == hexDigits[..4];
    assert hexDigits[..4] == [SegByte(number, 0), SegByte(number, 1), SegByte(number, 2), SegByte(number, 3)];
    assert hexDigits[4..6] == [SegByte(number, 4), SegByte(number, 5)];
    LowerWordBytes(Digit(number, 0), Digit(number, 1), Digit(number, 2), Digit(number, 3));
    HigherWordBytes(Digit(number, 4), Digit(number, 5));
    lowerSeg, higherSeg := lower, higher;
  }

  /**
   * The loops of `display_number` that build a word, `word |= hex_digits[i]
   * << ((i - from) * 8)` for `i` from `from` to `to`: the shifted patterns
   * never overlap, so each OR adds.
   */
  method OrShifted(hexDigits: array<U8>, from: nat, to: nat) returns (word: nat)
    requires from <= to <= hexDigits.Length
    ensures word == Pack(hexDigits[from..to])
  {
    word := 0;
    var i := from;
    while i < to
      invariant from <= i <= to
      invariant word == Pack(hexDigits[from..i])
    {
      var done := hexDigits[from..i + 1];
      assert |done| == i + 1 - from && done[..i - from] == hexDigits[from..i] && done[i - from] == hexDigits[i];
      word := word + hexDigits[i] * ByteWeight(i - from);
      i := i + 1;
    }
  }

  /** The first loop of `display_number`: the pattern of each of the six digits, least significant first. */
  method DigitPatterns(number: U32) returns (hexDigits: array<U8>)
    ensures fresh(hexDigits) && hexDigits.Length == 6
    ensures forall k :: 0 <= k < 6 ==> hexDigits[k] == SegByte(number, k)
  {
    hexDigits := new U8[6];
    var n := number;
    var i := 0;
    while i < 6
      invariant 0 <= i <= 6
      invariant forall k :: 0 <= k < i ==> hexDigits[k] == SegByte(number, k)
      invariant forall k: nat :: Digit(n, k) == Digit(number, i + k)
    {
      assert Digit(n, 0) == Digit(number, i);
      hexDigits[i] := SevenSeg.HEX_DIGITS[n % 10];
      assert hexDigits[i] == SevenSeg.IntTo7Seg(Digit(n, 0));
      forall k: nat
        ensures Digit(n / 10, k) == Digit(number, i + 1 + k)
      {
        assert Digit(n, k + 1) == Digit(n / 10, k);
      }
      n := n / 10;
      i := i + 1;
    }
  }

  /** `%d` of a non-negative number. */
  function DecimalString(n: nat): (s: string)
    ensures |s| > 0 && forall i :: 0 <= i < |s| ==> '0' <= s[i] <= '9'
  {
    if n < 10 then [DigitChar(n)] else DecimalString(n / 10) + [DigitChar(n % 10)]
  }

  function DigitChar(d: nat): (c: char)
    requires d < 10
    ensures '0' <= c <= '9'
  {
    ['0', '1', '2', '3', '4', '5', '6', '7', '8', '9'][d]
  }

  function CharDigit(c: char): nat
  {
    if '0' <= c <= '9' then (c as int) - ('0' as int) else 0
  }

  /** The value of a string of decimal digits. */
  function ParseDecimal(s: string): (r: nat)
    ensures r < Pow10(|s|)
  {
    if s == [] then 0 else 10 * ParseDecimal(s[..|s| - 1]) + CharDigit(s[|s| - 1])
  }

  lemma {:induction false} DecimalRoundTrip(n: nat)
    ensures ParseDecimal(DecimalString(n)) == n
  {
    var s := DecimalString(n);
    if n >= 10 {
      DecimalRoundTrip(n / 10);
      assert s[..|s| - 1] == DecimalString(n / 10);
    }
    assert CharDigit(DigitChar(n % 10)) == n % 10;
  }

  function Pow10(k: nat): (p: nat)
    ensures p > 0
  {
    if k == 0 then 1 else 10 * Pow10(k - 1)
  }

  /** A number below 10^k has at most k digits. */
  lemma {:induction false} DecimalLength(n: nat, k: nat)
    requires k >= 1 && n < Pow10(k)
    ensures |DecimalString(n)| <= k
  {
    if n >= 10 {
      assert k >= 2;
      DecimalLength(n / 10, k - 1);
    }
  }

  /** One `scnprintf(..., 8, "%d%c", ...)` of `fifo_show`: the value and its separator. */
  function Entry(v: nat, last: bool): string
  {
    DecimalString(v) + [if last then '\n' else ';']
  }

  /** A queued value's entry has at most 7 characters, so the 8-byte limit never cuts it. */
  lemma EntryFits(v: nat, last: bool)
    requires v <= MAX_VALUE
    ensures |Entry(v, last)| <= 7
  {
    assert Pow10(6) == 1000000;
    DecimalLength(v, 6);
  }

  /** The text `fifo_show` gives for `values`: each value, followed by ';' or, after the last, '\n'. */
  function FifoText(values: seq<nat>): (r: string)
    ensures r == [] <==> values == []
  {
    if values == [] then "" else Entry(values[0], |values| == 1) + FifoText(values[1..])
  }

  /** A non-empty `fifo` text ends with the newline after the last value. */
  lemma {:induction false} FifoTextEndsWithNewline(values: seq<nat>)
    requires values != []
    ensures var t := FifoText(values); |t| > 0 && t[|t| - 1] == '\n'
    decreases |values|
  {
    if |values| > 1 {
      FifoTextEndsWithNewline(values[1..]);
    }
  }

  /** The text from value `i` on is value `i`'s entry followed by the text from value `i + 1` on. */
  lemma FifoTextFrom(values: seq<nat>, i: nat)
    requires i < |values|
    ensures FifoText(values[i..]) == Entry(values[i], i == |values| - 1) + FifoText(values[i + 1..])
  {
    assert values[i..][1..] == values[i + 1..];
  }

  /** The number of leading decimal digits of `s`. */
  function DigitRun(s: string): (k: nat)
    ensures k <= |s|
  {
    if s == [] || !('0' <= s[0] <= '9') then 0 else 1 + DigitRun(s[1..])
  }

  /** Reads the values back from a separated list. */
  function ParseFifoText(s: string): seq<nat>
    decreases |s|
  {
    if s == [] then []
    else
      var k := DigitRun(s);
      if k == |s| then [ParseDecimal(s)] else [ParseDecimal(s[..k])] + ParseFifoText(s[k + 1..])
  }

  lemma {:induction false} DigitRunOfEntry(d: string, c: char, rest: string)
    requires forall i :: 0 <= i < |d| ==> '0' <= d[i] <= '9'
    requires !('0' <= c <= '9')
    ensures DigitRun(d + [c] + rest) == |d|
  {
    if d != [] {
      assert (d + [c] + rest)[1..] == d[1..] + [c] + rest;
      DigitRunOfEntry(d[1..], c, rest);
    } else {
      assert (d + [c] + rest)[0] == c;
    }
  }

  /** The dump lists every queued value, oldest first: reading it back gives the queue. */
  lemma {:induction false} FifoTextRoundTrip(values: seq<nat>)
    ensures ParseFifoText(FifoText(values)) == values
  {
    if values != [] {
      var d := DecimalString(values[0]);
      var sep := if |values| == 1 then '\n' else ';';
      var rest := FifoText(values[1..]);
      var s := FifoText(values);
      assert s == d + [sep] + rest;
      DigitRunOfEntry(d, sep, rest);
      assert s[..|d|] == d;
      assert s[|d| + 1..] == rest;
      DecimalRoundTrip(values[0]);
      FifoTextRoundTrip(values[1..]);
    }
  }

  class ShowNumber {
    /** The queued numbers, oldest first. */
    var fifo: seq<U32>
    var stopDisplay: bool
    /** How many times `zero_found` was completed. */
    var zeroFound: nat
    var displayDelay: U32
    var displayCount: U32

    /** Only displayable numbers are queued, and at most 64 of them. */
    ghost predicate Valid()
      reads this
    {
      |fifo| <= FIFO_CAPACITY && forall i :: 0 <= i < |fifo| ==> SENTINEL_VAL < fifo[i] <= MAX_VALUE
    }

    /** Probe: an empty queue, the display stopped, a delay of 1000 ms. */
    constructor ()
      ensures Valid() && fifo == [] && stopDisplay && zeroFound == 0
      ensures displayDelay == DEFAULT_DISPLAY_DELAY && displayCount == 0
    {
      fifo := [];
      stopDisplay := true;
      zeroFound := 0;
      displayDelay := DEFAULT_DISPLAY_DELAY;
      displayCount := 0;
    }

    /**
     * `on_write` of `count` bytes whose `count / 4` words are `user`;
     * `allocFails` and `copyFails` stand for kmalloc and copy_from_user failing.
     */
    method OnWrite(count: nat, user: seq<U32>, allocFails: bool, copyFails: bool) returns (r: int)
      requires Valid() && |user| == count / FIFO_TYPE_SIZE
      modifies this
      ensures Valid() && displayDelay == old(displayDelay) && displayCount == old(displayCount)
      ensures var accepted := count % FIFO_TYPE_SIZE == 0 && count <= FIFO_BYTES - |old(fifo)| * FIFO_TYPE_SIZE;
              if !accepted || allocFails || copyFails then
                r == (if !accepted then -EINVAL else if allocFails then -ENOMEM else -EFAULT)
                && fifo == old(fifo) && stopDisplay == old(stopDisplay) && zeroFound == old(zeroFound)
              else
                r == count && fifo == old(fifo) + Filtered(user)
                && stopDisplay == (old(stopDisplay) && SENTINEL_VAL !in user)
                && zeroFound == old(zeroFound) + (if old(stopDisplay) && SENTINEL_VAL in user then 1 else 0)
    {
      if count % FIFO_TYPE_SIZE != 0 || FIFO_BYTES - |fifo| * FIFO_TYPE_SIZE < count {
        return -EINVAL;
      }
      if allocFails {
        return -ENOMEM;
      }
      if copyFails {
        return -EFAULT;
      }
      assert |fifo| + |user| <= FIFO_CAPACITY;
      Enqueue(user);
      return count;
    }

    /** The loop of `on_write` over the copied values. */
    method Enqueue(user: seq<U32>)
      requires Valid() && |fifo| + |user| <= FIFO_CAPACITY
      modifies this
      ensures Valid() && displayDelay == old(displayDelay) && displayCount == old(displayCount)
      ensures fifo == old(fifo) + Filtered(user)
      ensures stopDisplay == (old(stopDisplay) && SENTINEL_VAL !in user)
      ensures zeroFound == old(zeroFound) + (if old(stopDisplay) && SENTINEL_VAL in user then 1 else 0)
    {
      var i := 0;
      while i < |user|
        invariant 0 <= i <= |user|
        invariant fifo == old(fifo) + Filtered(user[..i])
        invariant stopDisplay == (old(stopDisplay) && SENTINEL_VAL !in user[..i])
        invariant zeroFound == old(zeroFound) + (if old(stopDisplay) && SENTINEL_VAL in user[..i] then 1 else 0)
        invariant displayDelay == old(displayDelay) && displayCount == old(displayCount)
        invariant Valid() && |fifo| <= |old(fifo)| + i
      {
        FilteredAppend(user[..i], [user[i]]);
        assert user[..i + 1] == user[..i] + [user[i]];
        assert SENTINEL_VAL in user[..i + 1] <==> SENTINEL_VAL in user[..i] || user[i] == SENTINEL_VAL;
        EnqueueOne(user[i]);
        i := i + 1;
      }
      assert user[..|user|] == user;
    }

    /** One round of that loop: a zero restarts the display, a value above the maximum is skipped. */
    method EnqueueOne(value: U32)
      requires Valid() && |fifo| < FIFO_CAPACITY
      modifies this
      ensures Valid() && displayDelay == old(displayDelay) && displayCount == old(displayCount)
      ensures fifo == old(fifo) + Filtered([value])
      ensures stopDisplay == (old(stopDisplay) && value != SENTINEL_VAL)
      ensures zeroFound == old(zeroFound) + (if old(stopDisplay) && value == SENTINEL_VAL then 1 else 0)
    {
      if value == SENTINEL_VAL {
        if stopDisplay {
          stopDisplay := false;
          zeroFound := zeroFound + 1;
        }
      } else if value > MAX_VALUE {
        // too big: ignored
      } else {
        fifo := fifo + [value];
      }
    }

    /** `irq_handler`: KEY0 stops the display; other buttons do nothing. */
    method IrqHandler(pressed: U8)
      requires Valid()
      modifies this
      ensures Valid() && stopDisplay == (old(stopDisplay) || HasBit(pressed, KEY0))
      ensures fifo == old(fifo) && zeroFound == old(zeroFound)
      ensures displayDelay == old(displayDelay) && displayCount == old(displayCount)
    {
      if HasBit(pressed, KEY0) {
        stopDisplay := true;
      }
    }

    /**
     * `fifo_show`: the queue listed oldest first without taking anything out;
     * `allocFails` stands for kzalloc failing, which an empty queue does not call for.
     */
    method FifoShow(allocFails: bool) returns (r: int, text: string)
      requires Valid()
      ensures allocFails && |fifo| > 0 ==> r == -ENOMEM && text == ""
      ensures !(allocFails && |fifo| > 0) ==> text == FifoText(fifo) && r == |text|
      ensures !(allocFails && |fifo| > 0) ==> ParseFifoText(text) == fifo
    {
      if allocFails && |fifo| > 0 {
        return -ENOMEM, "";
      }
      var fifoVals := fifo;
      var valuesRead := |fifoVals|;
      text := "";
      var i := 0;
      while i < valuesRead
        invariant 0 <= i <= valuesRead
        invariant text + FifoText(fifoVals[i..]) == FifoText(fifoVals)
      {
        EntryFits(fifoVals[i], i == valuesRead - 1);
        var entry := Entry(fifoVals[i], i == valuesRead - 1);
        FifoTextFrom(fifoVals, i);
        assert (text + entry) + FifoText(fifoVals[i + 1..]) == text + (entry + FifoText(fifoVals[i + 1..]));
        text := text + entry;
        i := i + 1;
      }
      FifoTextRoundTrip(fifo);
      return |text|, text;
    }

    /** `display_time_store`: the parsed `int` is stored in the `uint32_t` delay. */
    method DisplayTimeStore(count: nat, parsed: Parsed) returns (r: int)
      requires Valid() && (parsed.Parsed? ==> -0x8000_0000 <= parsed.value < 0x8000_0000)
      modifies this
      ensures Valid() && fifo == old(fifo) && stopDisplay == old(stopDisplay) && zeroFound == old(zeroFound)
      ensures displayCount == old(displayCount)
      ensures parsed.ParseError? ==> r == -EINVAL && displayDelay == old(displayDelay)
      ensures parsed.Parsed? ==> r == count && displayDelay == ToU32(parsed.value)
    {
      match parsed {
        case ParseError(_) =>
          r := -EINVAL;
        case Parsed(v) =>
          displayDelay := ToU32(v);
          r := count;
      }
    }
  }
}
