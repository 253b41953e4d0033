/**
 * The chronometer driver draft: push-button events move the chronometer
 * between RESET, PAUSE and RUN, record laps and switch the display; the
 * elapsed time is shown as minutes, seconds and milliseconds, and each lap
 * is measured from a reference tick chosen by the lap display type.
 */
module Chronometre {
  import opened CTypes
  import opened Errno
  import opened Wrappers
  import opened PushButtons

  const MS_IN_A_MINUTE: int := 1000 * 60
  const MS_IN_A_SECOND: int := 1000

  datatype State = Reset | Pause | Run
  datatype DisplayState = DisplayTime | DisplayLap

  /** `enum chronometre_lap_display_type`. */
  const LAP_DISPLAY_FROM_START: int := 0
  const LAP_DISPLAY_SINCE_LAST_LAP: int := 1
  const LAP_DISPLAY_LEN: int := 2

  /** `struct chrono_time`. */
  datatype ChronoTime = ChronoTime(minutes: U32, seconds: U32, millis: U32)

  /** The time in milliseconds that a `ChronoTime` stands for. */
  function Milliseconds(t: ChronoTime): int
  {
    t.minutes * MS_IN_A_MINUTE + t.seconds * MS_IN_A_SECOND + t.millis
  }

  /** `get_display_time` applied to an elapsed time of `t` milliseconds. */
  function DisplayTimeOf(t: U32): (r: ChronoTime)
    ensures r.millis < MS_IN_A_SECOND && r.seconds < 60
    ensures Milliseconds(r) == t
  {
    var minutes := t / MS_IN_A_MINUTE;
    var rest := t % MS_IN_A_MINUTE;
    ChronoTime(minutes, rest / MS_IN_A_SECOND, rest % MS_IN_A_SECOND)
  }

  /** The decomposition is the only one with seconds below 60 and milliseconds below 1000. */
  lemma DisplayTimeUnique(t: U32, d: ChronoTime)
    requires d.millis < MS_IN_A_SECOND && d.seconds < 60 && Milliseconds(d) == t
    ensures d == DisplayTimeOf(t)
  {
    var low := d.seconds * MS_IN_A_SECOND + d.millis;
    SplitByConstant(d.minutes, low, MS_IN_A_MINUTE);
    SplitByConstant(d.seconds, d.millis, MS_IN_A_SECOND);
  }

  /** Dividing `q * m + r` by a second or a minute `m` gives back `q` and `r` when `r < m`. */
  lemma SplitByConstant(q: nat, r: nat, m: int)
    requires m == MS_IN_A_SECOND || m == MS_IN_A_MINUTE
    requires 0 <= r < m
    ensures (q * m + r) / m == q && (q * m + r) % m == r
  {
    if m == MS_IN_A_SECOND {
      assert (q * 1000 + r) / 1000 == q;
    } else {
      assert (q * 60000 + r) / 60000 == q;
    }
  }

  /**
   * `get_current_chrono_time`, given the elapsed milliseconds since
   * `start_jiffies`: zero unless the chronometer runs.
   */
  function CurrentChronoTime(state: State, elapsedMs: U32): (r: ChronoTime)
    ensures state != Run ==> Milliseconds(r) == 0 && r == ChronoTime(0, 0, 0)
    ensures state == Run ==> Milliseconds(r) == elapsedMs && r.millis < MS_IN_A_SECOND && r.seconds < 60
  {
    if state != Run then ChronoTime(0, 0, 0) else DisplayTimeOf(elapsedMs)
  }

  /** The state `thread_irq_handler` works on; `laps` is the lap list from head to tail. */
  datatype Chrono = Chrono(state: State, display: DisplayState, lapType: int,
                           start: U64, laps: seq<U64>, lapTimesSize: nat)

  /** The zeroed private data of the device: RESET, showing the time, laps from the start. */
  function Initial(): (c: Chrono)
    ensures c.state == Reset && c.laps == [] && c.lapTimesSize == |c.laps|
  {
    Chrono(Reset, DisplayTime, LAP_DISPLAY_FROM_START, 0, [], 0)
  }

  function Toggled(d: DisplayState): DisplayState
  {
    if d == DisplayLap then DisplayTime else DisplayLap
  }

  /**
   * What the threaded handler does with the button bits `btn` at tick `now`,
   * the bits taken in the order KEY0, KEY1, KEY2, KEY3; `allocFails` says
   * whether the lap allocation fails.
   */
  function Handled(c: Chrono, btn: U8, now: U64, allocFails: bool): (r: Chrono)
    ensures c.lapTimesSize == |c.laps| ==> r.lapTimesSize == |r.laps|
    ensures HasBit(btn, KEY0) ==> r.state == Run && r.start == now
    ensures c.state != Pause ==> r.state != Pause
    ensures r.lapType == c.lapType
  {
    var k0 := if HasBit(btn, KEY0) then c.(state := Run, start := now) else c;
    var k1 := if HasBit(btn, KEY1) && !allocFails
              then k0.(laps := k0.laps + [now], lapTimesSize := k0.lapTimesSize + 1)
              else k0;
    var k2 := if HasBit(btn, KEY2) then k1.(display := Toggled(k1.display)) else k1;
    if HasBit(btn, KEY3) && k2.state == Pause
    then k2.(state := Reset, lapTimesSize := 0, start := 0, laps := [])
    else k2
  }

  /** KEY1 alone appends a lap stamped `now` at the tail, or drops it when the allocation fails. */
  lemma LapPressAppends(c: Chrono, now: U64, allocFails: bool)
    ensures Handled(c, KEY1, now, allocFails)
            == if allocFails then c else c.(laps := c.laps + [now], lapTimesSize := c.lapTimesSize + 1)
  {
    assert HasBit(KEY1, KEY1) && !HasBit(KEY1, KEY0) && !HasBit(KEY1, KEY2) && !HasBit(KEY1, KEY3);
  }

  /** Two KEY2 presses give back the display state, and change nothing else. */
  lemma DisplayToggleTwice(c: Chrono, now1: U64, now2: U64, a1: bool, a2: bool)
    ensures Handled(Handled(c, KEY2, now1, a1), KEY2, now2, a2) == c
    ensures Handled(c, KEY2, now1, a1).display != c.display
  {
    assert HasBit(KEY2, KEY2) && !HasBit(KEY2, KEY0) && !HasBit(KEY2, KEY1) && !HasBit(KEY2, KEY3);
  }

  /** KEY3 alone resets a paused chronometer and its laps, and does nothing in any other state. */
  lemma ResetOnlyFromPause(c: Chrono, now: U64, allocFails: bool)
    ensures Handled(c, KEY3, now, allocFails)
            == if c.state == Pause then c.(state := Reset, lapTimesSize := 0, start := 0, laps := []) else c
  {
    assert HasBit(KEY3, KEY3) && !HasBit(KEY3, KEY0) && !HasBit(KEY3, KEY1) && !HasBit(KEY3, KEY2);
  }

  /** One button interrupt: the bits read at tick `now`. */
  datatype Event = Event(btn: U8, now: U64, allocFails: bool)

  /** The state after handling `events` in order. */
  function Replay(c: Chrono, events: seq<Event>): (r: Chrono)
    ensures r.lapType == c.lapType
    decreases |events|
  {
    if events == [] then c
    else Replay(Handled(c, events[0].btn, events[0].now, events[0].allocFails), events[1..])
  }

  /**
   * No sequence of button events leaves RESET or RUN for PAUSE, because every
   * KEY0 case falls through to RUN; the lap count stays the list length.
   */
  lemma {:induction false} ReplayNeverPauses(c: Chrono, events: seq<Event>)
    requires c.state != Pause && c.lapTimesSize == |c.laps|
    ensures Replay(c, events).state != Pause
    ensures Replay(c, events).lapTimesSize == |Replay(c, events).laps|
    decreases |events|
  {
    if events != [] {
      ReplayNeverPauses(Handled(c, events[0].btn, events[0].now, events[0].allocFails), events[1..]);
    }
  }

  /** Hence, from the initial state, a KEY3 press never has an effect. */
  lemma ResetUnreachable(events: seq<Event>, now: U64, allocFails: bool)
    ensures var c := Replay(Initial(), events);
            Handled(c, KEY3, now, allocFails) == c
  {
    ReplayNeverPauses(Initial(), events);
    ResetOnlyFromPause(Replay(Initial(), events), now, allocFails);
  }

  /** The tick the list entry at `pos` carries; position -1 is the list head, which is no lap. */
  function EntryTick(laps: seq<U64>, pos: int): Option<U64>
    requires -1 <= pos < |laps|
  {
    if pos == -1 then None else Some(laps[pos])
  }

  /**
   * The lap reference of `work_handler` as written, for a cursor at position
   * `pos` (which the code as written never reaches, see `NeverShowsAsWritten`):
   * `is_head` is asked of the current position, so the start tick is used only
   * in FROM_START mode or on the list head itself, and the first lap's
   * predecessor is the list head, read as if it were a lap (`None`).
   */
  function LapReferenceAsWritten(lapType: int, start: U64, laps: seq<U64>, pos: int): (r: Option<U64>)
    requires -1 <= pos < |laps|
    ensures lapType == LAP_DISPLAY_FROM_START || pos == -1 ==> r == Some(start)
    ensures lapType != LAP_DISPLAY_FROM_START && pos >= 0 ==> r == EntryTick(laps, pos - 1)
  {
    var isHead := pos == -1;
    if lapType == LAP_DISPLAY_FROM_START || isHead then Some(start) else EntryTick(laps, pos - 1)
  }

  /** In SINCE_LAST_LAP mode the first lap's reference is read from the list head. */
  lemma FirstLapReadsListHead(start: U64, laps: seq<U64>)
    requires |laps| > 0
    ensures LapReferenceAsWritten(LAP_DISPLAY_SINCE_LAST_LAP, start, laps, 0) == None
    ensures LapReference(LAP_DISPLAY_SINCE_LAST_LAP, start, laps, 0) == start
  {
  }

  /**
   * The lap reference as intended: `start_jiffies` in FROM_START mode or for
   * the first lap, the previous lap's tick otherwise.
   */
  function LapReference(lapType: int, start: U64, laps: seq<U64>, i: nat): (r: U64)
    requires i < |laps|
    ensures LapReferenceAsWritten(lapType, start, laps, i) == Some(r) <==> lapType == LAP_DISPLAY_FROM_START || i > 0
  {
    var prevIsHead := i - 1 == -1;
    if lapType == LAP_DISPLAY_FROM_START || prevIsHead then start else laps[i - 1]
  }

  /** `end_jiffies - start_jiffies` in `uint64_t`. */
  function Elapsed(ref: U64, end: U64): U64
  {
    (end - ref) % 0x1_0000_0000_0000_0000
  }

  /** The laps were recorded in order, after the start. */
  predicate Chronological(start: U64, laps: seq<U64>)
  {
    (forall i :: 0 <= i < |laps| ==> start <= laps[i]) &&
    (forall i, j :: 0 <= i < j < |laps| ==> laps[i] <= laps[j])
  }

  /** The sum of the first `k` lap durations for lap type `lapType`. */
  function LapTotal(lapType: int, start: U64, laps: seq<U64>, k: nat): int
    requires k <= |laps|
  {
    if k == 0 then 0 else LapTotal(lapType, start, laps, k - 1) + Elapsed(LapReference(lapType, start, laps, k - 1), laps[k - 1])
  }

  /** Measured since the last lap, the first `k` laps add up to the time of the k-th lap since the start. */
  lemma {:induction false} SinceLastLapsTelescope(start: U64, laps: seq<U64>, k: nat)
    requires k <= |laps| && Chronological(start, laps)
    ensures LapTotal(LAP_DISPLAY_SINCE_LAST_LAP, start, laps, k) == if k == 0 then 0 else laps[k - 1] - start
  {
    if k > 0 {
      SinceLastLapsTelescope(start, laps, k - 1);
      if k > 1 {
        assert laps[k - 2] <= laps[k - 1];
      }
    }
  }

  /**
   * A place on the circular `lap_times` list as `work_handler` walks it:
   * position -1 is the list head, 0 .. |laps| - 1 are the laps.
   */
  function NextPosition(laps: seq<U64>, p: int): (q: int)
    ensures -1 <= q < |laps|
    ensures 0 <= p + 1 < |laps| ==> q == p + 1
  {
    if 0 <= p + 1 < |laps| then p + 1 else -1
  }

  /**
   * `current_lap` after one pass of the lap branch of `work_handler` as
   * written (None is NULL): a lap goes to the next entry, but NULL stays
   * NULL, because the result of `list_first_entry` is discarded.
   */
  function NextCursorAsWritten(laps: seq<U64>, current: Option<int>): (r: Option<int>)
    ensures r.None? <==> current.None?
    ensures r.Some? ==> -1 <= r.value < |laps|
  {
    match current
    case None => None
    case Some(p) => Some(NextPosition(laps, p))
  }

  /** The cursor after one pass of the lap branch for each of the lap lists in `seen`, in order. */
  function CursorAfterAsWritten(seen: seq<seq<U64>>, current: Option<int>): Option<int>
    decreases |seen|
  {
    if seen == [] then current else CursorAfterAsWritten(seen[1..], NextCursorAsWritten(seen[0], current))
  }

  /** The handler starts with `current_lap` NULL, so it is still NULL after any number of passes. */
  lemma {:induction false} CursorStaysNull(seen: seq<seq<U64>>)
    ensures CursorAfterAsWritten(seen, None) == None
    decreases |seen|
  {
    if seen != [] {
      CursorStaysNull(seen[1..]);
    }
  }

  /** What one iteration of the `while (state == RUN)` loop of `work_handler` does. */
  datatype WorkStep =
    | Stopped                                      // the state is not RUN: the loop ends
    | Spin                                         // `continue`: nothing shown, no sleep
    | SpinShowingTime                              // no lap: DISPLAY_TIME is set, then `continue`
    | NullDereference                              // `list_prev_entry` of a NULL `current_lap`
    | Show(ref: Option<U64>, tick: Option<U64>)    // the lap from `ref` to `tick` is displayed

  const DISPLAY_LAP_TIME_MS: int := 3000

  /**
   * One iteration of the loop as written, at tick `now`, with `lapWindow` the
   * jiffies of DISPLAY_LAP_TIME_MS and `current` the cursor. The time check
   * compares with `last_lap_display_jiffies`, which stays 0. Both display
   * states reach the lap branch, DISPLAY_TIME by falling through.
   */
  function WorkIterationAsWritten(c: Chrono, now: U64, lapWindow: U64, current: Option<int>): (r: WorkStep)
    ensures r == Stopped <==> c.state != Run
    ensures r == Spin <==> c.state == Run && now < lapWindow
    ensures r == SpinShowingTime <==> c.state == Run && now >= lapWindow && current.None? && c.lapTimesSize == 0
    ensures r.Show? ==> current.Some?
  {
    if c.state != Run then Stopped
    else if now - 0 < lapWindow then Spin
    else if current.None? && c.lapTimesSize == 0 then SpinShowingTime
    else
      match NextCursorAsWritten(c.laps, current)
      case None => NullDereference
      case Some(p) => Show(LapReferenceAsWritten(c.lapType, c.start, c.laps, p), EntryTick(c.laps, p))
  }

  /**
   * The driver state after an iteration: only the pass that finds no lap
   * writes it, setting the display state to DISPLAY_TIME.
   */
  function AfterIteration(c: Chrono, step: WorkStep): (d: Chrono)
    ensures d == c.(display := d.display)
    ensures d.display == DisplayTime <==> step == SpinShowingTime || c.display == DisplayTime
  {
    if step == SpinShowingTime then c.(display := DisplayTime) else c
  }

  /**
   * In RUN with no lap recorded, once the time check passes, an iteration
   * resets the display state, so the next KEY2 press selects DISPLAY_LAP
   * whatever the display state was before.
   */
  lemma EmptyListPassThenToggle(c: Chrono, now: U64, lapWindow: U64, pressNow: U64, allocFails: bool)
    requires c.state == Run && now >= lapWindow && c.lapTimesSize == 0
    ensures var step := WorkIterationAsWritten(c, now, lapWindow, None);
            step == SpinShowingTime && Handled(AfterIteration(c, step), KEY2, pressNow, allocFails).display == DisplayLap
  {
    assert !HasBit(KEY2, KEY0) && !HasBit(KEY2, KEY1) && HasBit(KEY2, KEY2) && !HasBit(KEY2, KEY3);
  }

  /**
   * As written the loop never displays anything: whatever the driver state
   * and the tick seen at each iteration, the cursor is NULL, and in RUN with a
   * lap recorded and the time check passed, `list_prev_entry` dereferences it.
   */
  lemma {:induction false} NeverShowsAsWritten(seen: seq<seq<U64>>, c: Chrono, now: U64, lapWindow: U64)
    ensures var r := WorkIterationAsWritten(c, now, lapWindow, CursorAfterAsWritten(seen, None));
            !r.Show? && (c.state == Run && now >= lapWindow && c.lapTimesSize > 0 ==> r == NullDereference)
  {
    CursorStaysNull(seen);
  }

  /**
   * The cursor update as intended: NULL takes the first lap, and a lap the
   * next one, the first again after the last.
   */
  function NextCursor(laps: seq<U64>, current: Option<nat>): (r: Option<nat>)
    requires |laps| > 0
    ensures r.Some? && r.value < |laps|
  {
    match current
    case None => Some(0)
    case Some(i) => Some(if i + 1 < |laps| then i + 1 else 0)
  }

  /** The intended cursor after `passes` passes of the lap branch over `laps`. */
  function CursorAfter(laps: seq<U64>, current: Option<nat>, passes: nat): Option<nat>
    requires |laps| > 0
    decreases passes
  {
    if passes == 0 then current else CursorAfter(laps, NextCursor(laps, current), passes - 1)
  }

  /** From NULL, the intended cursor shows the laps in list order, over and over: pass `k + 1` shows lap `k mod |laps|`. */
  lemma {:induction false} CursorCycles(laps: seq<U64>, k: nat)
    requires |laps| > 0
    ensures CursorAfter(laps, None, k + 1) == Some(k % |laps|)
  {
    CursorCyclesFrom(laps, 0, k);
  }

  lemma {:induction false} CursorCyclesFrom(laps: seq<U64>, i: nat, k: nat)
    requires i < |laps|
    ensures CursorAfter(laps, Some(i), k) == Some((i + k) % |laps|)
    decreases k
  {
    if k == 0 {
      ModOf(i, |laps|, 0, i);
    } else {
      var j := if i + 1 < |laps| then i + 1 else 0;
      assert NextCursor(laps, Some(i)) == Some(j);
      assert CursorAfter(laps, Some(i), k) == CursorAfter(laps, Some(j), k - 1);
      CursorCyclesFrom(laps, j, k - 1);
      ModStep(i, k, |laps|);
    }
  }

  /** One step of the cursor, then `k - 1` more, is `k` steps modulo `n`. */
  lemma ModStep(i: nat, k: nat, n: nat)
    requires i < n && k > 0
    ensures ((if i + 1 < n then i + 1 else 0) + k - 1) % n == (i + k) % n
  {
    var j := if i + 1 < n then i + 1 else 0;
    if i + 1 == n {
      var q := (j + k - 1) / n;
      var r := (j + k - 1) % n;
      assert j + k - 1 == q * n + r;
      assert i + k == (q + 1) * n + r;
      ModOf(i + k, n, q + 1, r);
    }
  }

  /** Euclidean division leaves the remainder `r` of `a == q * n + r`. */
  lemma ModOf(a: int, n: int, q: int, r: int)
    requires n > 0 && 0 <= r < n && a == q * n + r
    ensures a % n == r
  {
    var d := q - a / n;
    assert d * n == a % n - r;
  }

  /** The device: the fields `thread_irq_handler` and `lap_display_type_store` change. */
  class Chronometre {
    var state: State
    var displayState: DisplayState
    var lapDisplayType: int
    var startJiffies: U64
    /** The `lap_times` list, head to tail. */
    var laps: seq<U64>
    var lapTimesSize: nat

    ghost function Snapshot(): Chrono
      reads this
    {
      Chrono(state, displayState, lapDisplayType, startJiffies, laps, lapTimesSize)
    }

    ghost predicate Valid()
      reads this
    {
      lapTimesSize == |laps| && 0 <= lapDisplayType < LAP_DISPLAY_LEN
    }

    /** The zeroed private data. */
    constructor ()
      ensures Valid() && Snapshot() == Initial()
    {
      state := Reset;
      displayState := DisplayTime;
      lapDisplayType := LAP_DISPLAY_FROM_START;
      startJiffies := 0;
      laps := [];
      lapTimesSize := 0;
    }

    /** `thread_irq_handler` for the button bits `btnPressed` at tick `now`. */
    method ThreadIrq(btnPressed: U8, now: U64, allocFails: bool)
      requires Valid()
      modifies this
      ensures Valid() && Snapshot() == Handled(old(Snapshot()), btnPressed, now, allocFails)
    {
      if HasBit(btnPressed, KEY0) {
        // The cases of the switch have no `break`: each one falls into the next.
        var entry := state;
        if entry == Run {
          state := Pause;
        }
        if entry == Run || entry == Pause {
          state := Run;
        }
        state := Run;
        startJiffies := now;
      }
      ghost var c := old(Snapshot());
      ghost var k0 := if HasBit(btnPressed, KEY0) then c.(state := Run, start := now) else c;
      assert Snapshot() == k0;
      if HasBit(btnPressed, KEY1) {
        if !allocFails {
          laps := laps + [now];
          lapTimesSize := lapTimesSize + 1;
        }
      }
      ghost var k1 := if HasBit(btnPressed, KEY1) && !allocFails
                      then k0.(laps := k0.laps + [now], lapTimesSize := k0.lapTimesSize + 1)
                      else k0;
      assert Snapshot() == k1;
      if HasBit(btnPressed, KEY2) {
        match displayState {
          case DisplayLap => displayState := DisplayTime;
          case DisplayTime => displayState := DisplayLap;
        }
      }
      assert Snapshot() == if HasBit(btnPressed, KEY2) then k1.(display := Toggled(k1.display)) else k1;
      if HasBit(btnPressed, KEY3) {
        if state == Pause {
          state := Reset;
          lapTimesSize := 0;
          startJiffies := 0;
          laps := [];
        }
      }
    }

    /**
     * `lap_display_type_store` of a `count`-byte input that `kstrtou8`
     * parses as `parsed`.
     */
    method LapDisplayTypeStore(count: nat, parsed: Parsed) returns (r: int)
      requires Valid() && (parsed.Parsed? ==> 0 <= parsed.value < 0x100)
      modifies this
      ensures Valid()
      ensures match parsed
        case ParseError(code) => r == code && Snapshot() == old(Snapshot())
        case Parsed(v) =>
          if v >= LAP_DISPLAY_LEN then r == -EINVAL && Snapshot() == old(Snapshot())
          else r == count && Snapshot() == old(Snapshot()).(lapType := v)
    {
      match parsed {
        case ParseError(code) =>
          return code;
        case Parsed(newType) =>
          if newType >= LAP_DISPLAY_LEN {
            return -EINVAL;
          }
          lapDisplayType := newType;
          return count;
      }
    }
  }
}

/** The userspace reader of the chronometer: decodes the current time and the laps it reads. */
module ChronoTest {
  import opened CTypes
  import Chronometre

  /** `struct time`: minutes, seconds and hundredths of a second. */
  datatype Time = Time(minutes: U32, secs: U32, cents: U32)

  /** What `main` ends with: an exit code, or the current time and the laps it prints. */
  datatype Report = Exit(code: int) | Report(current: Time, laps: seq<Time>)

  /** The number of `unsigned int`s in the read buffer. */
  const BUF_WORDS: int := 1024
  const WORD_SIZE: int := 4

  function TimeMilliseconds(t: Time): int
  {
    t.minutes * Chronometre.MS_IN_A_MINUTE + t.secs * Chronometre.MS_IN_A_SECOND + t.cents * 10
  }

  /** `msecs_to_time`: the time to the hundredth, truncated. */
  function MsecsToTime(msecs: U32): (t: Time)
    ensures t.secs < 60 && t.cents < 100
    ensures TimeMilliseconds(t) <= msecs < TimeMilliseconds(t) + 10
  {
    var minutes := msecs / Chronometre.MS_IN_A_MINUTE;
    var rest := msecs % Chronometre.MS_IN_A_MINUTE;
    Time(minutes, rest / Chronometre.MS_IN_A_SECOND, (rest % Chronometre.MS_IN_A_SECOND) / 10)
  }

  /** The reader shows what the driver's decomposition gives, with milliseconds cut to hundredths. */
  lemma AgreesWithDriver(msecs: U32)
    ensures var d := Chronometre.DisplayTimeOf(msecs);
            MsecsToTime(msecs) == Time(d.minutes, d.seconds, d.millis / 10)
  {
  }

  /**
   * `main` after `read` returned `bytesRead` into `buf`: word 0 is the
   * current time, the following whole words are laps.
   */
  function Decode(buf: seq<U32>, bytesRead: int): (r: Report)
    requires |buf| == BUF_WORDS && bytesRead <= BUF_WORDS * WORD_SIZE
    ensures bytesRead <= 0 <==> r == Exit(1)
    ensures bytesRead > 0 ==> r.Report? && r.current == MsecsToTime(buf[0])
    ensures bytesRead > 0 ==> |r.laps| == if bytesRead / WORD_SIZE == 0 then 0 else bytesRead / WORD_SIZE - 1
    ensures bytesRead > 0 ==> forall i :: 0 <= i < |r.laps| ==> r.laps[i] == MsecsToTime(buf[i + 1])
  {
    if bytesRead <= 0 then Exit(1)
    else
      var nbsRead := bytesRead / WORD_SIZE;
      var lapCount := if nbsRead == 0 then 0 else nbsRead - 1;
      Report(MsecsToTime(buf[0]), seq(lapCount, i requires 0 <= i < lapCount => MsecsToTime(buf[i + 1])))
  }
}
