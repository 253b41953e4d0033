/**
 * The show_number driver, first version: numbers written to the device are
 * queued in a typed KFIFO of 64 `uint32_t` elements; a display thread takes
 * them out one by one and splits each into six decimal digits (the register
 * writes themselves are commented out in this version).
 */
module ShowNumberV1 {
  import opened CTypes
  import opened Errno
  import opened NumberFilter
  import opened PushButtons

  /** `DECLARE_KFIFO(fifo, uint32_t, 64)`: capacity in elements. */
  const FIFO_CAPACITY: int := 64
  const FIFO_TYPE_SIZE: int := 4

  /** How many times `v` occurs in `values`. */
  function Occurrences(values: seq<U32>, v: U32): nat
  {
    multiset(values)[v]
  }

  /**
   * The elements one as-written `kfifo_in(&fifo, &value, sizeof(FIFO_TYPE))`
   * adds: on a typed KFIFO the length counts elements, so it copies `value`
   * and the three words that follow it in memory (`stack`), as many of the
   * four as there is room for.
   */
  function PushedAsWritten(fifo: seq<U32>, value: U32, stack: seq<U32>): (r: seq<U32>)
    requires |stack| == FIFO_TYPE_SIZE - 1 && |fifo| <= FIFO_CAPACITY
    ensures |r| == Min(FIFO_TYPE_SIZE, FIFO_CAPACITY - |fifo|)
    ensures r == ([value] + stack)[..|r|]
  {
    ([value] + stack)[..Min(FIFO_TYPE_SIZE, FIFO_CAPACITY - |fifo|)]
  }

  function Min(a: int, b: int): int
  {
    if a <= b then a else b
  }

  /** The FIFO after the as-written loop of `on_write` over `values`. */
  function QueuedAsWritten(fifo: seq<U32>, values: seq<U32>, stack: seq<U32>): (r: seq<U32>)
    requires |stack| == FIFO_TYPE_SIZE - 1 && |fifo| <= FIFO_CAPACITY
    ensures |fifo| <= |r| <= FIFO_CAPACITY && r[..|fifo|] == fifo
    decreases |values|
  {
    if values == [] then fifo
    else
      var before := QueuedAsWritten(fifo, values[..|values| - 1], stack);
      var v := values[|values| - 1];
      if v == SENTINEL_VAL || v > MAX_VALUE then before
      else before + PushedAsWritten(before, v, stack)
  }

  /** A single displayable value written to an empty FIFO leaves four elements in it, not one. */
  lemma OneValueQueuesFour(v: U32, stack: seq<U32>)
    requires SENTINEL_VAL < v <= MAX_VALUE && |stack| == FIFO_TYPE_SIZE - 1
    ensures QueuedAsWritten([], [v], stack) == [v] + stack
    ensures Filtered([v]) == [v]
  {
    assert [v][..0] == [];
  }

  /** `number` after `i` rounds of `/= 10`. */
  function Shifted(number: nat, i: nat): nat
    decreases i
  {
    if i == 0 then number else Shifted(number / 10, i - 1)
  }

  /** Round `i` of the digit loop sees `Shifted(number, i)`: its last digit is digit `i`, and it divides on. */
  lemma {:induction false} ShiftedDigit(number: nat, i: nat)
    ensures Digit(number, i) == Shifted(number, i) % 10
    ensures Shifted(number, i + 1) == Shifted(number, i) / 10
    decreases i
  {
    if i > 0 {
      ShiftedDigit(number / 10, i - 1);
    }
  }

  /** `display_number`: the six decimal digits of `number`, least significant first. */
  method DisplayNumber(number: U32) returns (digits: array<U8>)
    ensures fresh(digits) && digits.Length == 6
    ensures forall k :: 0 <= k < 6 ==> digits[k] == Digit(number, k)
    ensures digits[0] as int + 10 * (digits[1] as int) + 100 * (digits[2] as int) + 1000 * (digits[3] as int)
            + 10000 * (digits[4] as int) + 100000 * (digits[5] as int) == number % 1000000
  {
    digits := new U8[6];
    var n: nat := number;
    var i := 0;
    while i < 6
      invariant 0 <= i <= 6 && n == Shifted(number, i)
      invariant forall k :: 0 <= k < i ==> digits[k] == Digit(number, k)
    {
      ShiftedDigit(number, i);
      digits[i] := n % 10;
      n := n / 10;
      i := i + 1;
    }
    SixDigits(number);
  }

  /** What one more value of a write adds to the filtered values, the sentinel test and the sentinel count. */
  lemma PrefixStep(user: seq<U32>, i: nat)
    requires i < |user|
    ensures Filtered(user[..i + 1]) == Filtered(user[..i]) + Filtered([user[i]])
    ensures SENTINEL_VAL in user[..i + 1] <==> SENTINEL_VAL in user[..i] || user[i] == SENTINEL_VAL
    ensures Occurrences(user[..i + 1], SENTINEL_VAL) == Occurrences(user[..i], SENTINEL_VAL) + Occurrences([user[i]], SENTINEL_VAL)
  {
    assert user[..i + 1] == user[..i] + [user[i]];
    FilteredAppend(user[..i], [user[i]]);
  }

  /** The driver's state: the FIFO, `stop_thread` and the count of `complete(&zero_found)`. */
  class ShowNumber {
    var fifo: seq<U32>
    var stopThread: bool
    var zeroFound: nat

    ghost predicate Valid()
      reads this
    {
      |fifo| <= FIFO_CAPACITY
    }

    /** After probe: empty FIFO, `stop_thread` false (zeroed allocation), no completion yet. */
    constructor ()
      ensures Valid() && fifo == [] && !stopThread && zeroFound == 0
    {
      fifo := [];
      stopThread := false;
      zeroFound := 0;
    }

    /**
     * `on_write` with `kfifo_in` enqueuing one element per accepted value;
     * `allocFails` stands for kmalloc failing, `copyFails` for copy_from_user.
     */
    method OnWrite(count: nat, user: seq<U32>, allocFails: bool, copyFails: bool) returns (r: int)
      requires Valid() && |user| == count / FIFO_TYPE_SIZE
      modifies this
      ensures Valid()
      ensures var accepted := count % FIFO_TYPE_SIZE == 0 && FIFO_CAPACITY - |old(fifo)| >= |user|;
              if !accepted || allocFails || copyFails then
                r == (if !accepted then -EINVAL else if allocFails then -ENOMEM else -EFAULT)
                && fifo == old(fifo) && stopThread == old(stopThread) && zeroFound == old(zeroFound)
              else
                r == count && fifo == old(fifo) + Filtered(user)
                && stopThread == (old(stopThread) && SENTINEL_VAL !in user)
                && zeroFound == old(zeroFound) + Occurrences(user, SENTINEL_VAL)
    {
      if count % FIFO_TYPE_SIZE != 0 || FIFO_CAPACITY - |fifo| < |user| {
        return -EINVAL;
      }
      if allocFails {
        return -ENOMEM;
      }
      if copyFails {
        return -EFAULT;
      }
      Enqueue(user);
      return count;
    }

    /** The loop of `on_write` over the copied values. */
    method Enqueue(user: seq<U32>)
      requires Valid() && |fifo| + |user| <= FIFO_CAPACITY
      modifies this
      ensures Valid() && fifo == old(fifo) + Filtered(user)
      ensures stopThread == (old(stopThread) && SENTINEL_VAL !in user)
      ensures zeroFound == old(zeroFound) + Occurrences(user, SENTINEL_VAL)
    {
      var i := 0;
      while i < |user|
        invariant 0 <= i <= |user|
        invariant fifo == old(fifo) + Filtered(user[..i])
        invariant stopThread == (old(stopThread) && SENTINEL_VAL !in user[..i])
        invariant zeroFound == old(zeroFound) + Occurrences(user[..i], SENTINEL_VAL)
        invariant |fifo| <= |old(fifo)| + i
      {
        PrefixStep(user, i);
        ghost var before := fifo;
        EnqueueOne(user[i]);
        assert fifo == before + Filtered([user[i]]);
        assert old(fifo) + Filtered(user[..i + 1]) == old(fifo) + Filtered(user[..i]) + Filtered([user[i]]);
        i := i + 1;
      }
      assert user[..|user|] == user;
    }

    /** One round of that loop: a zero always restarts the display, a value above the maximum is skipped. */
    method EnqueueOne(value: U32)
      requires Valid() && |fifo| < FIFO_CAPACITY
      modifies this
      ensures Valid() && fifo == old(fifo) + Filtered([value])
      ensures stopThread == (old(stopThread) && value != SENTINEL_VAL)
      ensures zeroFound == old(zeroFound) + Occurrences([value], SENTINEL_VAL)
    {
      if value == SENTINEL_VAL {
        stopThread := false;
        zeroFound := zeroFound + 1;
      } else if value > MAX_VALUE {
        // too big: ignored
      } else {
        fifo := fifo + [value];
      }
    }

    /**
     * `on_write` as written: each accepted value is enqueued with
     * `kfifo_in(&fifo, &value, sizeof(FIFO_TYPE))`, which copies four
     * elements, the value and the `stack` words after it.
     */
    method OnWriteAsWritten(count: nat, user: seq<U32>, stack: seq<U32>, allocFails: bool, copyFails: bool)
      returns (r: int)
      requires Valid() && |user| == count / FIFO_TYPE_SIZE && |stack| == FIFO_TYPE_SIZE - 1
      modifies this
      ensures Valid()
      ensures var accepted := count % FIFO_TYPE_SIZE == 0 && FIFO_CAPACITY - |old(fifo)| >= |user|;
              if !accepted || allocFails || copyFails then
                r == (if !accepted then -EINVAL else if allocFails then -ENOMEM else -EFAULT)
                && fifo == old(fifo) && stopThread == old(stopThread) && zeroFound == old(zeroFound)
              else
                r == count && fifo == QueuedAsWritten(old(fifo), user, stack)
                && stopThread == (old(stopThread) && SENTINEL_VAL !in user)
                && zeroFound == old(zeroFound) + Occurrences(user, SENTINEL_VAL)
    {
      if count % FIFO_TYPE_SIZE != 0 || FIFO_CAPACITY - |fifo| < |user| {
        return -EINVAL;
      }
      if allocFails {
        return -ENOMEM;
      }
      if copyFails {
        return -EFAULT;
      }
      var i := 0;
      while i < |user|
        invariant 0 <= i <= |user|
        invariant fifo == QueuedAsWritten(old(fifo), user[..i], stack)
        invariant stopThread == (old(stopThread) && SENTINEL_VAL !in user[..i])
        invariant zeroFound == old(zeroFound) + Occurrences(user[..i], SENTINEL_VAL)
      {
        assert user[..i + 1][..i] == user[..i];
        assert user[..i + 1] == user[..i] + [user[i]];
        var value := user[i];
        if value == SENTINEL_VAL {
          stopThread := false;
          zeroFound := zeroFound + 1;
        } else if value > MAX_VALUE {
          // too big: ignored
        } else {
          fifo := fifo + PushedAsWritten(fifo, value, stack);
        }
        i := i + 1;
      }
      assert user[..|user|] == user;
      return count;
    }

    /** `irq_handler`: KEY0 stops the display thread; other buttons do nothing. */
    method IrqHandler(pressed: U8)
      requires Valid()
      modifies this
      ensures Valid() && stopThread == (old(stopThread) || HasBit(pressed, KEY0))
      ensures fifo == old(fifo) && zeroFound == old(zeroFound)
    {
      if HasBit(pressed, KEY0) {
        stopThread := true;
      }
    }
  }

  /**
   * Writing the single value 5 to a fresh device: the driver as written
   * queues 5 and the three stack words after it, the corrected one queues 5.
   */
  method WriteOneValue(stack: seq<U32>) returns (asWritten: seq<U32>, corrected: seq<U32>)
    requires |stack| == FIFO_TYPE_SIZE - 1
    ensures asWritten == [5] + stack && |asWritten| == 4
    ensures corrected == [5]
  {
    var d := new ShowNumber();
    var r := d.OnWriteAsWritten(4, [5], stack, false, false);
    asWritten := d.fifo;
    OneValueQueuesFour(5, stack);
    var e := new ShowNumber();
    var r2 := e.OnWrite(4, [5], false, false);
    corrected := e.fifo;
  }
}
