/**
 * The first lab's scrolling text: the phrase "Bienvenue en drv" is shown six
 * letters at a time on the six seven-segment displays; KEY0 scrolls the
 * window back, KEY1 forward, and the LEDs mark the two ends of the phrase.
 */
module ScrollingText {
  import opened CTypes
  import opened PushButtons

  const NB_LOWER_7_SEG: int := 2
  const NB_UPPER_7_SEG: int := 4
  const NB_7_SEG: int := 6
  const FIVE_LEDS_MASK: int := 0x1F

  const PHRASE: string := "Bienvenue en drv"
  /** `strlen(phrase) - NB_7_SEG`: the last start of a full window. */
  const MAX_INDEX: int := |PHRASE| - NB_7_SEG

  /** `ascii_to_7_seg_map`: the pattern of each letter 'a' .. 'z'. */
  const LETTER_SEGMENTS: seq<U8> :=
    [0x77, 0x7c, 0x58, 0x5e, 0x79, 0x71, 0x3d, 0x74, 0x30, 0x1e, 0x00, 0x38, 0x00,
     0x54, 0x5c, 0x73, 0x67, 0x50, 0x6d, 0x78, 0x3e, 0x3e, 0x00, 0x00, 0x6e, 0x00]

  /** `tolower` in the C locale. */
  function ToLower(c: char): char
  {
    if 'A' <= c <= 'Z' then (c as int + 32) as char else c
  }

  predicate IsLetter(c: char)
  {
    'a' <= ToLower(c) <= 'z'
  }

  /** The letters the table leaves dark. */
  predicate Unsupported(c: char)
  {
    ToLower(c) in {'k', 'm', 'w', 'x', 'z'}
  }

  /** `char_to_7_seg`: a letter's pattern in either case; anything else is blank. */
  function CharTo7Seg(c: char): (r: U8)
    ensures !IsLetter(c) ==> r == 0
  {
    var lower := ToLower(c);
    if 'a' <= lower <= 'z' then LETTER_SEGMENTS[lower as int - 'a' as int] else 0
  }

  /** Upper and lower case show the same pattern. */
  lemma CaseInsensitive(c: char)
    requires 'a' <= c <= 'z'
    ensures CharTo7Seg((c as int - 32) as char) == CharTo7Seg(c)
  {
  }

  /** A character lights some segment exactly when it is a supported letter. */
  lemma LitExactlyForSupportedLetters(c: char)
    ensures CharTo7Seg(c) != 0 <==> IsLetter(c) && !Unsupported(c)
  {
  }

  /**
   * Two lit patterns are equal only for the same letter, except 'u' and 'v'
   * which the table draws alike.
   */
  lemma PatternsIdentifyLetters(a: char, b: char)
    requires 'a' <= a <= 'z' && 'a' <= b <= 'z'
    requires CharTo7Seg(a) != 0 && CharTo7Seg(a) == CharTo7Seg(b)
    ensures a == b || (a in {'u', 'v'} && b in {'u', 'v'})
  {
  }

  /** The two register banks of the displays. */
  datatype Bank = Lower | Upper

  /**
   * Where `write_char_to_7_seg` puts character `index` of a word: the first
   * two go to the lower bank from its last byte down, the other four to the
   * upper bank from its last byte down.
   */
  function Slot(index: int): (s: (Bank, int))
    requires 0 <= index < NB_7_SEG
    ensures s.0 == Lower ==> 0 <= s.1 < NB_LOWER_7_SEG
    ensures s.0 == Upper ==> 0 <= s.1 < NB_UPPER_7_SEG
  {
    if index < NB_LOWER_7_SEG then (Lower, NB_LOWER_7_SEG - 1 - index)
    else (Upper, NB_UPPER_7_SEG - 1 - (index - NB_LOWER_7_SEG))
  }

  /** Every display byte receives exactly one character position. */
  lemma SlotsDistinct(i: int, j: int)
    requires 0 <= i < NB_7_SEG && 0 <= j < NB_7_SEG
    ensures Slot(i) == Slot(j) <==> i == j
  {
  }

  /** The LED register for a window start: the five upper LEDs at the start, the five lower at the end. */
  function LedsFor(start: int): (r: U16)
    ensures start != 0 && start != MAX_INDEX ==> r == 0
  {
    if start == 0 then ToU16(-FIVE_LEDS_MASK - 1)   // ~((uint16_t)FIVE_LEDS_MASK)
    else if start == MAX_INDEX then FIVE_LEDS_MASK
    else 0
  }

  /** The start marker lights LEDs 5..9 (and the unused high bits), the end marker LEDs 0..4. */
  lemma LedsMarkEnds(start: int)
    ensures start == 0 ==> LedsFor(start) == 0xFFE0 && LedsFor(start) % 0x400 == 0x3E0
    ensures start == MAX_INDEX ==> LedsFor(start) == 0x1F
    ensures start != 0 && start != MAX_INDEX ==> LedsFor(start) == 0
  {
  }

  /** The window start after a poll that returned `btn`: KEY0 goes back unless at 0, otherwise KEY1 goes forward unless at the end. */
  function NextIndex(start: int, btn: U8): (r: int)
    ensures start - 1 <= r <= start + 1
    ensures !HasBit(btn, KEY0) && !HasBit(btn, KEY1) ==> r == start
  {
    if HasBit(btn, KEY0) && start > 0 then start - 1
    else if HasBit(btn, KEY1) && start < MAX_INDEX then start + 1
    else start
  }

  /** The window never leaves the phrase, and moves by at most one letter. */
  lemma NextIndexBounded(start: int, btn: U8)
    requires 0 <= start <= MAX_INDEX
    ensures 0 <= NextIndex(start, btn) <= MAX_INDEX
    ensures NextIndex(start, btn) - start in {-1, 0, 1}
    ensures NextIndex(start, btn) != start ==> btn != 0
  {
  }

  /**
   * With KEY0 and KEY1 in the same reading KEY0 wins, except at the first
   * window where KEY0 cannot move and KEY1 is then taken.
   */
  lemma KeyZeroTakesPriority(start: int)
    requires 0 <= start <= MAX_INDEX
    ensures start > 0 ==> NextIndex(start, (KEY0 + KEY1) as U8) == start - 1
    ensures start == 0 ==> NextIndex(start, (KEY0 + KEY1) as U8) == 1
  {
  }

  /** KEY1 then KEY0 comes back to the same window, and so does KEY0 then KEY1. */
  lemma ScrollingInverse(start: int)
    ensures 0 <= start < MAX_INDEX ==> NextIndex(NextIndex(start, KEY1 as U8), KEY0 as U8) == start
    ensures 0 < start <= MAX_INDEX ==> NextIndex(NextIndex(start, KEY0 as U8), KEY1 as U8) == start
  {
  }

  /**
   * The window start and remembered button register after the main loop
   * has polled `readings` (each the register's first read and its re-read).
   */
  function Scrolled(start: int, last: U8, readings: seq<(U8, U8)>): (r: (int, U8))
    requires 0 <= start <= MAX_INDEX
    ensures 0 <= r.0 <= MAX_INDEX
    decreases |readings|
  {
    if readings == [] then (start, last)
    else
      var (s, l) := Scrolled(start, last, readings[..|readings| - 1]);
      var (regNew, regReread) := readings[|readings| - 1];
      var p := PollOnce(l, regNew, regReread);
      NextIndexBounded(s, p.pressed);
      (NextIndex(s, p.pressed), p.last)
  }

  /** The six display bytes, lower bank `lower` (2 bytes) and upper bank `upper` (4 bytes). */
  class SevenSegDisplay {
    var lower: array<U8>
    var upper: array<U8>

    ghost predicate Valid()
      reads this
    {
      lower.Length == NB_LOWER_7_SEG && upper.Length == NB_UPPER_7_SEG && lower != upper
    }

    /** The byte showing character position `index`. */
    function At(index: int): U8
      requires Valid() && 0 <= index < NB_7_SEG
      reads this, lower, upper
    {
      var (bank, offset) := Slot(index);
      if bank == Lower then lower[offset] else upper[offset]
    }

    /** What the six displays show, in character position order. */
    function Shown(): (s: seq<U8>)
      requires Valid()
      reads this, lower, upper
      ensures |s| == NB_7_SEG
    {
      [At(0), At(1), At(2), At(3), At(4), At(5)]
    }

    /** The first `|w|` positions show the characters of `w`. */
    ghost predicate Shows(w: string)
      requires Valid()
      reads this, lower, upper
    {
      |w| <= NB_7_SEG && forall k :: 0 <= k < |w| ==> At(k) == CharTo7Seg(w[k])
    }

    /** Freshly cleared registers. */
    constructor ()
      ensures Valid() && fresh(lower) && fresh(upper)
      ensures forall k :: 0 <= k < NB_7_SEG ==> At(k) == 0
    {
      lower := new U8[NB_LOWER_7_SEG](_ => 0);
      upper := new U8[NB_UPPER_7_SEG](_ => 0);
    }

    /** `write_char_to_7_seg`: position `index` shows `c`, the others are unchanged. */
    method WriteChar(c: char, index: int)
      requires Valid() && 0 <= index < NB_7_SEG
      modifies lower, upper
      ensures Valid() && At(index) == CharTo7Seg(c)
      ensures forall k :: 0 <= k < NB_7_SEG && k != index ==> At(k) == old(At(k))
    {
      if index < NB_LOWER_7_SEG {
        lower[NB_LOWER_7_SEG - 1 - index] := CharTo7Seg(c);
      } else {
        upper[NB_UPPER_7_SEG - 1 - (index - NB_LOWER_7_SEG)] := CharTo7Seg(c);
      }
    }

    /** `write_word_to_7_seg`: the first `len` positions show `word`'s first `len` characters. */
    method WriteWord(word: string, len: int)
      requires Valid() && 0 <= len <= NB_7_SEG && len <= |word|
      modifies lower, upper
      ensures Valid() && Shows(word[..len])
      ensures forall k :: len <= k < NB_7_SEG ==> At(k) == old(At(k))
    {
      var i := 0;
      while i < len
        invariant 0 <= i <= len && Valid()
        invariant forall k :: 0 <= k < i ==> At(k) == CharTo7Seg(word[k])
        invariant forall k :: i <= k < NB_7_SEG ==> At(k) == old(At(k))
      {
        WriteChar(word[i], i);
        i := i + 1;
      }
    }

    /** `clear_7_seg`: every display dark. */
    method Clear()
      requires Valid()
      modifies lower, upper
      ensures Valid() && forall k :: 0 <= k < NB_7_SEG ==> At(k) == 0
    {
      lower[0] := 0;
      lower[1] := 0;
      upper[0] := 0;
      upper[1] := 0;
      upper[2] := 0;
      upper[3] := 0;
    }
  }

  /** The program's state: the display registers, the LED register, the button poller and `start_index`. */
  class Scroller {
    var display: SevenSegDisplay
    var poller: ButtonPoller
    var leds: U16
    var startIndex: int

    /**
     * The window start stays within the phrase, and the displays always
     * show the window at `startIndex`.
     */
    ghost predicate Valid()
      reads this, display, display.lower, display.upper
    {
      display.Valid() && 0 <= startIndex <= MAX_INDEX
      && display.Shows(PHRASE[startIndex..startIndex + NB_7_SEG])
    }

    /** `main` before its loop: LEDs and displays cleared, the first six letters written, start 0. */
    constructor ()
      ensures Valid() && fresh(display) && fresh(display.lower) && fresh(display.upper) && fresh(poller)
      ensures startIndex == 0 && leds == 0 && poller.regOldValue == 0
    {
      display := new SevenSegDisplay();
      poller := new ButtonPoller();
      leds := 0;
      startIndex := 0;
      new;
      display.WriteWord(PHRASE, NB_7_SEG);
    }

    /**
     * One round of the `for (;;)`: poll the buttons (`regNew`, `regReread`
     * are the register's two reads), move the window, set the LEDs and
     * redraw the displays when a poll reported something.
     */
    method Step(regNew: U8, regReread: U8) returns (btn: U8)
      requires Valid()
      modifies this, poller, display.lower, display.upper
      ensures Valid() && display == old(display) && poller == old(poller)
      ensures Poll(btn, poller.regOldValue) == PollOnce(old(poller.regOldValue), regNew, regReread)
      ensures startIndex == NextIndex(old(startIndex), btn)
      ensures leds == LedsFor(startIndex)
    {
      btn := poller.GetBtnPressed(regNew, regReread);
      NextIndexBounded(startIndex, btn);
      if HasBit(btn, KEY0) && startIndex > 0 {
        startIndex := startIndex - 1;
      } else if HasBit(btn, KEY1) && startIndex < MAX_INDEX {
        startIndex := startIndex + 1;
      }
      if startIndex == 0 {
        leds := ToU16(-FIVE_LEDS_MASK - 1);
      } else if startIndex == MAX_INDEX {
        leds := FIVE_LEDS_MASK;
      } else {
        leds := 0;
      }
      if btn != 0 {
        Redraw();
      }
    }

    /** The `for (;;)` of `main`, over the first `|readings|` rounds. */
    method Run(readings: seq<(U8, U8)>)
      requires Valid()
      modifies this, poller, display.lower, display.upper
      ensures Valid() && display == old(display) && poller == old(poller)
      ensures (startIndex, poller.regOldValue) == Scrolled(old(startIndex), old(poller.regOldValue), readings)
    {
      var i := 0;
      while i < |readings|
        invariant 0 <= i <= |readings| && Valid()
        invariant display == old(display) && poller == old(poller)
        invariant (startIndex, poller.regOldValue) == Scrolled(old(startIndex), old(poller.regOldValue), readings[..i])
      {
        assert readings[..i + 1][..i] == readings[..i];
        var btn := Step(readings[i].0, readings[i].1);
        i := i + 1;
      }
      assert readings[..|readings|] == readings;
    }

    /** The redraw of a round: clear the displays and write the window at `startIndex`. */
    method Redraw()
      requires display.Valid() && 0 <= startIndex <= MAX_INDEX
      modifies display.lower, display.upper
      ensures Valid()
    {
      display.Clear();
      display.WriteWord(PHRASE[startIndex..], NB_7_SEG);
      assert PHRASE[startIndex..][..NB_7_SEG] == PHRASE[startIndex..startIndex + NB_7_SEG];
    }
  }

  /** The letters of the window at 2, "envenu", and their patterns. */
  lemma EnvenuPatterns()
    ensures CharTo7Seg(PHRASE[2]) == 0x79 && CharTo7Seg(PHRASE[3]) == 0x54 && CharTo7Seg(PHRASE[4]) == 0x3e
    ensures CharTo7Seg(PHRASE[5]) == 0x79 && CharTo7Seg(PHRASE[6]) == 0x54 && CharTo7Seg(PHRASE[7]) == 0x3e
  {
  }

  /**
   * Pressing KEY1, holding it, releasing it and pressing it again scrolls
   * two letters: the held button is reported once and the release is not a
   * press. The displays then show "envenu" and the LEDs are off.
   */
  method ScrollTwice() returns (start: int, shown: seq<U8>, leds: U16)
    ensures start == 2 && leds == 0
    ensures shown == [0x79, 0x54, 0x3e, 0x79, 0x54, 0x3e]
  {
    var s := new Scroller();
    var b1 := s.Step(2, 2);
    assert b1 == 2 && s.startIndex == 1;
    var b2 := s.Step(2, 2);
    assert b2 == 0 && s.startIndex == 1;
    var b3 := s.Step(0, 0);
    assert b3 == 0 && s.startIndex == 1;
    var b4 := s.Step(2, 2);
    assert b4 == 2 && s.startIndex == 2;
    start := s.startIndex;
    leds := s.leds;
    ghost var w := PHRASE[2..8];
    assert s.display.Shows(w);
    assert forall k :: 0 <= k < 6 ==> w[k] == PHRASE[2 + k];
    EnvenuPatterns();
    shown := s.display.Shown();
    assert shown == [CharTo7Seg(w[0]), CharTo7Seg(w[1]), CharTo7Seg(w[2]), CharTo7Seg(w[3]), CharTo7Seg(w[4]), CharTo7Seg(w[5])];
  }
}
