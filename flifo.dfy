/**
 * The flifo character device: a 64-byte circular list that is read back
 * either first-in-first-out or last-in-first-out, holding values of 1, 2, 4
 * or 8 bytes, configured through ioctl.
 */
module Flifo {
  import opened CTypes

  const NB_VALUES: int := 64
  const MODE_FIFO: int := 0
  const MODE_LIFO: int := 1

  /** `size_t` on the 32-bit ARM core of the DE1-SoC. */
  const SIZE_T_MODULUS: int := 0x1_0000_0000

  /** The ioctl magic `'+'`. */
  const FLIFO_IOC_MAGIC: int := 0x2B

  /** `_IO(magic, nr)` and `_IOW(magic, nr, int)` of the generic Linux ioctl encoding. */
  function IoctlNumber(isWrite: bool, nr: int): int
  {
    (if isWrite then 0x4000_0000 + 4 * 0x1_0000 else 0) + FLIFO_IOC_MAGIC * 0x100 + nr
  }

  const FLIFO_CMD_RESET: int := IoctlNumber(false, 0)
  const FLIFO_CMD_CHANGE_MODE: int := IoctlNumber(true, 1)
  const FLIFO_CMD_CHANGE_VALUE_SIZE: int := IoctlNumber(true, 2)

  /** The value sizes `is_size_valid` accepts. */
  const POSSIBLE_SIZES: seq<int> := [1, 2, 4, 8]

  predicate ValidSize(size: int)
  {
    size == 1 || size == 2 || size == 4 || size == 8
  }

  /** The `n` bytes of the circular buffer `buf` starting at index `start`, oldest first. */
  function Ring(buf: seq<U8>, start: int, n: nat): (r: seq<U8>)
    requires |buf| == NB_VALUES && 0 <= start < NB_VALUES && n <= NB_VALUES
    ensures |r| == n
  {
    seq(n, k requires 0 <= k < n => buf[(start + k) % NB_VALUES])
  }

  function Reverse(s: seq<U8>): (r: seq<U8>)
    ensures |r| == |s|
  {
    if s == [] then [] else Reverse(s[1..]) + [s[0]]
  }

  /** What a LIFO write stores: the bytes of each `size`-byte value in reverse order. */
  function ReverseEach(s: seq<U8>, size: nat): (r: seq<U8>)
    requires size > 0
    ensures |r| == |s|
    decreases |s|
  {
    if |s| <= size then Reverse(s) else Reverse(s[..size]) + ReverseEach(s[size..], size)
  }

  /** The `size`-byte values of `s` in reverse order, each value's bytes in their own order. */
  function ReverseValues(s: seq<U8>, size: nat): (r: seq<U8>)
    requires size > 0
    ensures |r| == |s|
    decreases |s|
  {
    if |s| <= size then s else ReverseValues(s[size..], size) + s[..size]
  }

  /** The bytes a successful read of `count` bytes returns from the stored bytes `s`. */
  function Taken(mode: int, s: seq<U8>, count: nat): seq<U8>
    requires count <= |s|
  {
    if mode == MODE_LIFO then Reverse(s[|s| - count..]) else s[..count]
  }

  /** The stored bytes left after a successful read of `count` bytes. */
  function Left(mode: int, s: seq<U8>, count: nat): seq<U8>
    requires count <= |s|
  {
    if mode == MODE_LIFO then s[..|s| - count] else s[count..]
  }

  /** The stored bytes after a successful write of `data` (`write_to_list`). */
  function Stored(mode: int, s: seq<U8>, data: seq<U8>, size: nat): seq<U8>
    requires size > 0
  {
    if mode == MODE_LIFO then s + ReverseEach(data, size) else s + data
  }

  /** The LIFO read index as written, `values[next_in - 1]` in `size_t` arithmetic. */
  function LifoReadIndexAsWritten(nextIn: int): int
  {
    (nextIn - 1) % SIZE_T_MODULUS
  }

  /** The LIFO read index corrected to step back around the circular buffer. */
  function LifoReadIndex(nextIn: int): (idx: int)
    requires 0 <= nextIn < NB_VALUES
    ensures 0 <= idx < NB_VALUES
    ensures (idx + 1) % NB_VALUES == nextIn
  {
    (nextIn + NB_VALUES - 1) % NB_VALUES
  }

  /** The two indexes agree except when `next_in` has wrapped to 0. */
  lemma LifoReadIndexAgrees(nextIn: int)
    requires 0 < nextIn < NB_VALUES
    ensures LifoReadIndex(nextIn) == LifoReadIndexAsWritten(nextIn) == nextIn - 1
  {
  }

  /** With `next_in == 0` the as-written index lies outside the 64-byte list. */
  lemma LifoReadIndexAsWrittenOutOfBounds()
    ensures LifoReadIndexAsWritten(0) >= NB_VALUES
    ensures LifoReadIndex(0) == NB_VALUES - 1
  {
  }

  lemma RingAppend(buf: seq<U8>, start: int, n: nat, b: U8)
    requires |buf| == NB_VALUES && 0 <= start < NB_VALUES && n < NB_VALUES
    ensures Ring(buf[(start + n) % NB_VALUES := b], start, n + 1) == Ring(buf, start, n) + [b]
  {
    var pos := (start + n) % NB_VALUES;
    var r := Ring(buf[pos := b], start, n + 1);
    forall k | 0 <= k < n
      ensures r[k] == Ring(buf, start, n)[k]
    {
      assert (start + k) % NB_VALUES != pos;
    }
  }

  lemma RingDropFront(buf: seq<U8>, start: int, n: nat)
    requires |buf| == NB_VALUES && 0 <= start < NB_VALUES && 0 < n <= NB_VALUES
    ensures Ring(buf, (start + 1) % NB_VALUES, n - 1) == Ring(buf, start, n)[1..]
  {
    var r := Ring(buf, (start + 1) % NB_VALUES, n - 1);
    forall k | 0 <= k < n - 1
      ensures r[k] == Ring(buf, start, n)[k + 1]
    {
      assert ((start + 1) % NB_VALUES + k) % NB_VALUES == (start + k + 1) % NB_VALUES;
    }
  }

  /**
   * One round of the read loop, on the stored bytes `c0` the read started
   * from: the byte taken (first or last of what is left) extends what was
   * taken and `rest` is what is left after it.
   */
  lemma TakeStep(mode: int, c0: seq<U8>, i: nat, value: U8, rest: seq<U8>)
    requires i < |c0|
    requires mode != MODE_LIFO ==> Left(mode, c0, i) == [value] + rest
    requires mode == MODE_LIFO ==> Left(mode, c0, i) == rest + [value]
    ensures rest == Left(mode, c0, i + 1) && Taken(mode, c0, i + 1) == Taken(mode, c0, i) + [value]
  {
    var n := |c0|;
    if mode == MODE_LIFO {
      assert c0[..n - i] == c0[..n - i - 1] + [c0[n - i - 1]];
      assert c0[n - i - 1..] == [value] + c0[n - i..];
      ReverseAppendOne(c0[n - i..], value);
    } else {
      assert c0[i..] == [c0[i]] + c0[i + 1..];
      assert c0[..i + 1] == c0[..i] + [value];
    }
  }

  /** Storing one byte moves `next_in` and the count together, so the start index stays. */
  lemma StepIndexes(nextIn: int, count: int)
    requires 0 <= nextIn < NB_VALUES && 0 <= count < NB_VALUES
    ensures (NB_VALUES + (nextIn + 1) % NB_VALUES - (count + 1)) % NB_VALUES == (NB_VALUES + nextIn - count) % NB_VALUES
    ensures nextIn == count % NB_VALUES ==> (nextIn + 1) % NB_VALUES == (count + 1) % NB_VALUES
  {
  }

  lemma {:induction false} ReverseAppendOne(s: seq<U8>, b: U8)
    ensures Reverse([b] + s) == Reverse(s) + [b]
  {
    assert ([b] + s)[1..] == s;
  }

  lemma {:induction false} ReverseConcat(a: seq<U8>, b: seq<U8>)
    ensures Reverse(a + b) == Reverse(b) + Reverse(a)
    decreases |a|
  {
    if a == [] {
      assert a + b == b;
    } else {
      assert (a + b)[1..] == a[1..] + b;
      ReverseConcat(a[1..], b);
    }
  }

  lemma {:induction false} ReverseEachAppend(a: seq<U8>, b: seq<U8>, size: nat, n: nat)
    requires size > 0 && |a| == n * size && |b| == size
    ensures ReverseEach(a + b, size) == ReverseEach(a, size) + Reverse(b)
    decreases n
  {
    if n == 0 {
      assert a + b == b;
    } else {
      assert (a + b)[..size] == a[..size];
      assert (a + b)[size..] == a[size..] + b;
      if n == 1 {
        assert a[size..] == [];
        assert a[size..] + b == b;
      } else {
        ReverseEachAppend(a[size..], b, size, n - 1);
      }
    }
  }

  /** Value `i` of `nbValues` values of `size` bytes lies within them. */
  lemma ChunkBounds(i: nat, nbValues: nat, size: nat)
    requires i < nbValues
    ensures 0 <= i * size <= (i + 1) * size <= nbValues * size
    ensures (i + 1) * size == i * size + size
  {
  }

  /** Reversing one more value's bytes extends `ReverseEach` of the values before it. */
  lemma ReverseEachStep(data: seq<U8>, size: nat, i: nat)
    requires size > 0 && (i + 1) * size <= |data|
    ensures ReverseEach(data[..(i + 1) * size], size)
            == ReverseEach(data[..i * size], size) + Reverse(data[i * size..(i + 1) * size])
  {
    var chunk := data[i * size..(i + 1) * size];
    assert data[..(i + 1) * size] == data[..i * size] + chunk;
    ReverseEachAppend(data[..i * size], chunk, size, i);
  }

  /**
   * Reading back everything a LIFO write stored gives the values in reverse
   * order, each value with its bytes in their original order.
   */
  lemma {:induction false} ReverseOfReverseEach(s: seq<U8>, size: nat)
    requires size > 0
    ensures Reverse(ReverseEach(s, size)) == ReverseValues(s, size)
    decreases |s|
  {
    if |s| <= size {
      ReverseTwice(s);
    } else {
      ReverseConcat(Reverse(s[..size]), ReverseEach(s[size..], size));
      ReverseTwice(s[..size]);
      ReverseOfReverseEach(s[size..], size);
    }
  }

  lemma {:induction false} ReverseTwice(s: seq<U8>)
    ensures Reverse(Reverse(s)) == s
    decreases |s|
  {
    if s != [] {
      ReverseConcat(Reverse(s[1..]), [s[0]]);
      assert Reverse([s[0]]) == [s[0]] by { assert [s[0]][1..] == []; }
      ReverseTwice(s[1..]);
    }
  }

  /**
   * LIFO round trip: after writing `data` in LIFO mode, reading as many bytes
   * returns its values last-in-first-out and leaves the earlier list as it was.
   */
  lemma LifoRoundTrip(s: seq<U8>, data: seq<U8>, size: nat)
    requires size > 0
    ensures Taken(MODE_LIFO, Stored(MODE_LIFO, s, data, size), |data|) == ReverseValues(data, size)
    ensures Left(MODE_LIFO, Stored(MODE_LIFO, s, data, size), |data|) == s
  {
    var t := s + ReverseEach(data, size);
    assert t[|t| - |data|..] == ReverseEach(data, size);
    assert t[..|t| - |data|] == s;
    ReverseOfReverseEach(data, size);
  }

  /** In LIFO mode a one-value read returns the value written last, bytes in their original order. */
  lemma LifoTopValue(s: seq<U8>, data: seq<U8>, size: nat, n: nat)
    requires size > 0 && |data| == n * size && n > 0
    ensures Taken(MODE_LIFO, Stored(MODE_LIFO, s, data, size), size) == data[|data| - size..]
    ensures Left(MODE_LIFO, Stored(MODE_LIFO, s, data, size), size) == Stored(MODE_LIFO, s, data[..|data| - size], size)
  {
    var m := |data| - size;
    assert data == data[..m] + data[m..];
    assert |data[..m]| == (n - 1) * size;
    ReverseEachAppend(data[..m], data[m..], size, n - 1);
    var t := s + ReverseEach(data, size);
    assert t == (s + ReverseEach(data[..m], size)) + Reverse(data[m..]);
    assert t[|t| - size..] == Reverse(data[m..]);
    ReverseTwice(data[m..]);
  }

  /** FIFO round trip: the bytes come back in the order written, after those already stored. */
  lemma FifoRoundTrip(s: seq<U8>, data: seq<U8>, size: nat)
    requires size > 0
    ensures Taken(MODE_FIFO, Stored(MODE_FIFO, s, data, size), |s|) == s
    ensures Left(MODE_FIFO, Stored(MODE_FIFO, s, data, size), |s|) == data
  {
  }

  /** `is_size_valid`: a search of the table of accepted sizes. */
  method IsSizeValid(arg: int) returns (valid: bool)
    ensures valid <==> ValidSize(arg)
  {
    var possibleValues := POSSIBLE_SIZES;
    var i := 0;
    while i < |possibleValues|
      invariant 0 <= i <= |possibleValues|
      invariant possibleValues == POSSIBLE_SIZES
      invariant forall k :: 0 <= k < i ==> possibleValues[k] != arg
    {
      if possibleValues[i] == arg {
        return true;
      }
      i := i + 1;
    }
    assert POSSIBLE_SIZES[0] != arg && POSSIBLE_SIZES[1] != arg && POSSIBLE_SIZES[2] != arg && POSSIBLE_SIZES[3] != arg;
    return false;
  }

  class FlifoDevice {
    var valueSize: int
    /** Number of bytes held. */
    var valueCount: int
    var values: array<U8>
    var nextIn: int
    var mode: int

    /** The configuration the ioctl interface allows. */
    ghost predicate Configured()
      reads this
    {
      values.Length == NB_VALUES && ValidSize(valueSize) && (mode == MODE_FIFO || mode == MODE_LIFO)
    }

    /** In LIFO mode the list always starts at index 0, since changing mode empties it. */
    ghost predicate Valid()
      reads this
    {
      Configured()
      && 0 <= nextIn < NB_VALUES
      && 0 <= valueCount <= NB_VALUES
      && (mode == MODE_LIFO ==> nextIn == valueCount % NB_VALUES)
    }

    /** Index of the oldest stored byte. */
    ghost function Start(): (s: int)
      reads this
      requires Valid()
      ensures 0 <= s < NB_VALUES
      ensures (s + valueCount) % NB_VALUES == nextIn
      ensures mode == MODE_LIFO ==> s == 0
    {
      (NB_VALUES + nextIn - valueCount) % NB_VALUES
    }

    /** The stored bytes, oldest first. */
    ghost function Contents(): (c: seq<U8>)
      reads this, values
      requires Valid()
      ensures |c| == valueCount
    {
      Ring(values[..], Start(), valueCount)
    }

    /** `flifo_init`: an empty FIFO list of one-byte values. */
    constructor ()
      ensures Valid() && fresh(values)
      ensures Contents() == [] && mode == MODE_FIFO && valueSize == 1
    {
      values := new U8[NB_VALUES](_ => 0);
      nextIn := 0;
      valueCount := 0;
      valueSize := 1;
      mode := MODE_FIFO;
    }

    /** `reset_list`. */
    method ResetList()
      requires Configured()
      modifies this
      ensures Valid() && Contents() == []
      ensures values == old(values) && mode == old(mode) && valueSize == old(valueSize)
    {
      nextIn := 0;
      valueCount := 0;
    }

    /** Takes the oldest byte (one FIFO step of `flifo_read`). */
    method PopOldest() returns (b: U8)
      requires Valid() && mode == MODE_FIFO && valueCount > 0
      modifies this
      ensures Valid() && values == old(values) && mode == old(mode) && valueSize == old(valueSize)
      ensures old(Contents()) == [b] + Contents()
    {
      b := values[(NB_VALUES + nextIn - valueCount) % NB_VALUES];
      ghost var c := Contents();
      ghost var start := Start();
      RingDropFront(values[..], start, valueCount);
      valueCount := valueCount - 1;
      assert Start() == (start + 1) % NB_VALUES;
      assert c == [c[0]] + c[1..];
    }

    /** Takes the newest byte (one LIFO step of `flifo_read`, with the corrected index). */
    method PopNewest() returns (b: U8)
      requires Valid() && mode == MODE_LIFO && valueCount > 0
      modifies this
      ensures Valid() && values == old(values) && mode == old(mode) && valueSize == old(valueSize)
      ensures old(Contents()) == Contents() + [b]
    {
      b := values[LifoReadIndex(nextIn)];
      ghost var c := Contents();
      assert b == c[valueCount - 1];
      valueCount := valueCount - 1;
      nextIn := LifoReadIndex(nextIn);
      assert c == c[..valueCount] + [b];
    }

    /** The `switch (mode)` of one round of `flifo_read`'s loop. */
    method TakeOne() returns (b: U8)
      requires Valid() && valueCount > 0
      modifies this
      ensures Valid() && values == old(values) && mode == old(mode) && valueSize == old(valueSize)
      ensures mode == MODE_FIFO ==> old(Contents()) == [b] + Contents()
      ensures mode == MODE_LIFO ==> old(Contents()) == Contents() + [b]
    {
      if mode == MODE_FIFO {
        b := PopOldest();
      } else {
        b := PopNewest();
      }
    }

    /**
     * `flifo_read` of `count` bytes; `userBufNull`, `allocFails` and
     * `copyFails` stand for a NULL user buffer, a failing kmalloc and a
     * failing copy_to_user, `ppos` for the file position the call receives.
     * A failing copy still consumes the bytes.
     */
    method Read(count: nat, userBufNull: bool, allocFails: bool, ppos: int, copyFails: bool)
      returns (r: int, out: seq<U8>)
      requires Valid()
      modifies this
      ensures Valid() && values == old(values) && mode == old(mode) && valueSize == old(valueSize)
      ensures var consumed := !userBufNull && count % valueSize == 0 && count <= |old(Contents())|
                              && !allocFails && ppos == 0;
              && r == (if consumed && !copyFails then count else 0)
              && out == (if consumed && !copyFails then Taken(mode, old(Contents()), count) else [])
              && Contents() == (if consumed then Left(mode, old(Contents()), count) else old(Contents()))
    {
      if userBufNull || count % valueSize != 0 || count > valueCount {
        return 0, [];
      }
      if allocFails {
        return 0, [];
      }
      if ppos != 0 {
        return 0, [];
      }
      var buffer := TakeBytes(count);
      if copyFails {
        return 0, [];
      }
      return count, buffer;
    }

    /** The loop of `flifo_read`: takes `count` bytes one at a time in the current mode. */
    method TakeBytes(count: nat) returns (buffer: seq<U8>)
      requires Valid() && count <= valueCount
      modifies this
      ensures Valid() && values == old(values) && mode == old(mode) && valueSize == old(valueSize)
      ensures buffer == Taken(mode, old(Contents()), count) && Contents() == Left(mode, old(Contents()), count)
    {
      ghost var c0 := Contents();
      buffer := [];
      var i := 0;
      while i < count
        invariant 0 <= i <= count
        invariant Valid() && values == old(values) && mode == old(mode) && valueSize == old(valueSize)
        invariant buffer == Taken(mode, c0, i) && Contents() == Left(mode, c0, i)
      {
        var value := TakeOne();
        TakeStep(mode, c0, i, value, Contents());
        buffer := buffer + [value];
        i := i + 1;
      }
    }

    /** Stores one byte at `next_in` (one step of `write_to_list`). */
    method Push(b: U8)
      requires Valid() && valueCount < NB_VALUES
      modifies this, values
      ensures Valid() && values == old(values) && mode == old(mode) && valueSize == old(valueSize)
      ensures Contents() == old(Contents()) + [b]
    {
      ghost var start := Start();
      ghost var buf0 := values[..];
      RingAppend(buf0, start, valueCount, b);
      StepIndexes(nextIn, valueCount);
      values[nextIn] := b;
      assert values[..] == buf0[(start + valueCount) % NB_VALUES := b];
      nextIn := (nextIn + 1) % NB_VALUES;
      valueCount := valueCount + 1;
    }

    /** The inner LIFO loop of `write_to_list`: one value's bytes, last byte first. */
    method PushReversed(v: seq<U8>)
      requires Valid() && valueCount + |v| <= NB_VALUES
      modifies this, values
      ensures Valid() && values == old(values) && mode == old(mode) && valueSize == old(valueSize)
      ensures Contents() == old(Contents()) + Reverse(v)
    {
      var j := |v|;
      while j > 0
        invariant 0 <= j <= |v|
        invariant Valid() && values == old(values) && mode == old(mode) && valueSize == old(valueSize)
        invariant valueCount == old(valueCount) + (|v| - j)
        invariant Contents() == old(Contents()) + Reverse(v[j..])
      {
        assert v[j - 1..] == [v[j - 1]] + v[j..];
        ReverseAppendOne(v[j..], v[j - 1]);
        Push(v[j - 1]);
        j := j - 1;
      }
    }

    /**
     * `flifo_write` of the bytes `data`; `allocFails` and `copyFails` stand
     * for a failing kmalloc and a failing copy_from_user.
     */
    method Write(data: seq<U8>, allocFails: bool, copyFails: bool) returns (r: int)
      requires Valid()
      modifies this, values
      ensures Valid() && values == old(values) && mode == old(mode) && valueSize == old(valueSize)
      ensures var ok := |data| != 0 && |data| % valueSize == 0 && |old(Contents())| + |data| <= NB_VALUES
                        && !allocFails && !copyFails;
              && r == (if ok then |data| else 0)
              && Contents() == (if ok then Stored(mode, old(Contents()), data, valueSize) else old(Contents()))
    {
      var count := |data|;
      if count == 0 || count % valueSize != 0 || valueCount + count > NB_VALUES {
        return 0;
      }
      if allocFails || copyFails {
        return 0;
      }
      WriteToList(data);
      return count;
    }

    /** `write_to_list`: FIFO copies the bytes in order, LIFO reverses each value's bytes. */
    method WriteToList(data: seq<U8>)
      requires Valid() && |data| % valueSize == 0 && valueCount + |data| <= NB_VALUES
      modifies this, values
      ensures Valid() && values == old(values) && mode == old(mode) && valueSize == old(valueSize)
      ensures Contents() == Stored(mode, old(Contents()), data, valueSize)
    {
      var size := valueSize;
      var count := |data|;
      assert count == count / size * size + count % size;
      if mode == MODE_FIFO {
        WriteFifo(data);
      } else {
        WriteLifo(data, count / size);
      }
    }

    /** The FIFO branch of `write_to_list`: the bytes in order. */
    method WriteFifo(data: seq<U8>)
      requires Valid() && valueCount + |data| <= NB_VALUES
      modifies this, values
      ensures Valid() && values == old(values) && mode == old(mode) && valueSize == old(valueSize)
      ensures Contents() == old(Contents()) + data
    {
      ghost var c0 := Contents();
      var i := 0;
      while i < |data|
        invariant 0 <= i <= |data|
        invariant Valid() && values == old(values) && mode == old(mode) && valueSize == old(valueSize)
        invariant valueCount == |c0| + i
        invariant Contents() == c0 + data[..i]
      {
        Push(data[i]);
        assert data[..i + 1] == data[..i] + [data[i]];
        i := i + 1;
      }
      assert data[..|data|] == data;
    }

    /** The LIFO branch of `write_to_list`: `nbValues` values, each one's bytes last byte first. */
    method WriteLifo(data: seq<U8>, nbValues: nat)
      requires Valid() && |data| == nbValues * valueSize && valueCount + |data| <= NB_VALUES
      modifies this, values
      ensures Valid() && values == old(values) && mode == old(mode) && valueSize == old(valueSize)
      ensures Contents() == old(Contents()) + ReverseEach(data, valueSize)
    {
      ghost var c0 := Contents();
      var size := valueSize;
      var i := 0;
      while i < nbValues
        invariant 0 <= i <= nbValues
        invariant Valid() && values == old(values) && mode == old(mode) && valueSize == old(valueSize)
        invariant valueCount == |c0| + i * size
        invariant Contents() == c0 + ReverseEach(data[..i * size], size)
      {
        ChunkBounds(i, nbValues, size);
        var chunk := data[i * size..(i + 1) * size];
        assert |chunk| == size;
        ReverseEachStep(data, size, i);
        PushReversed(chunk);
        i := i + 1;
      }
      assert data[..nbValues * size] == data;
    }

    /**
     * `flifo_ioctl`: reset the list, change the mode or change the value size
     * (both of which also reset the list). An invalid argument gives -1 and
     * changes nothing; an unknown command gives 0 and changes nothing.
     */
    method Ioctl(cmd: int, arg: nat) returns (r: int)
      requires Valid()
      modifies this
      ensures Valid() && values == old(values)
      ensures r == (if (cmd == FLIFO_CMD_CHANGE_MODE && arg != MODE_FIFO && arg != MODE_LIFO)
                       || (cmd == FLIFO_CMD_CHANGE_VALUE_SIZE && !ValidSize(arg)) then -1 else 0)
      ensures cmd == FLIFO_CMD_RESET ==> Contents() == [] && mode == old(mode) && valueSize == old(valueSize)
      ensures cmd == FLIFO_CMD_CHANGE_MODE && r == 0 ==> Contents() == [] && mode == arg && valueSize == old(valueSize)
      ensures cmd == FLIFO_CMD_CHANGE_VALUE_SIZE && r == 0 ==> Contents() == [] && valueSize == arg && mode == old(mode)
      ensures r == -1 || cmd !in {FLIFO_CMD_RESET, FLIFO_CMD_CHANGE_MODE, FLIFO_CMD_CHANGE_VALUE_SIZE} ==>
                nextIn == old(nextIn) && valueCount == old(valueCount) && mode == old(mode) && valueSize == old(valueSize)
    {
      if cmd == FLIFO_CMD_RESET {
        ResetList();
      } else if cmd == FLIFO_CMD_CHANGE_MODE {
        if arg != MODE_FIFO && arg != MODE_LIFO {
          return -1;
        }
        mode := arg;
        ResetList();
      } else if cmd == FLIFO_CMD_CHANGE_VALUE_SIZE {
        var valid := IsSizeValid(arg);
        if !valid {
          return -1;
        }
        valueSize := arg;
        ResetList();
      }
      return 0;
    }
  }

  /**
   * The multi-read scenario of the flifo test program: 64-bit values written
   * and read back in one call come back in order in FIFO mode and in reverse
   * order, each value intact, in LIFO mode.
   */
  method MultiReadScenario(data: seq<U8>) returns (fifoRead: seq<U8>, lifoRead: seq<U8>)
    requires 0 < |data| <= NB_VALUES && |data| % 8 == 0
    ensures fifoRead == data
    ensures lifoRead == ReverseValues(data, 8)
  {
    var dev := new FlifoDevice();
    var r := dev.Ioctl(FLIFO_CMD_RESET, 0);
    r := dev.Ioctl(FLIFO_CMD_CHANGE_MODE, MODE_FIFO);
    r := dev.Ioctl(FLIFO_CMD_CHANGE_VALUE_SIZE, 8);
    r := dev.Write(data, false, false);
    FifoRoundTrip([], data, 8);
    r, fifoRead := dev.Read(|data|, false, false, 0, false);
    r := dev.Ioctl(FLIFO_CMD_CHANGE_MODE, MODE_LIFO);
    r := dev.Write(data, false, false);
    LifoRoundTrip([], data, 8);
    r, lifoRead := dev.Read(|data|, false, false, 0, false);
  }

  /**
   * Filling the list in LIFO mode wraps `next_in` to 0, where the as-written
   * read index `next_in - 1` falls outside the list and the corrected one
   * designates the newest byte.
   */
  method FullLifoReadIndex(data: seq<U8>) returns (asWritten: int, corrected: int)
    requires |data| == NB_VALUES
    ensures asWritten >= NB_VALUES
    ensures corrected == NB_VALUES - 1
  {
    var dev := new FlifoDevice();
    var r := dev.Ioctl(FLIFO_CMD_CHANGE_MODE, MODE_LIFO);
    r := dev.Write(data, false, false);
    asWritten := LifoReadIndexAsWritten(dev.nextIn);
    corrected := LifoReadIndex(dev.nextIn);
    LifoReadIndexAsWrittenOutOfBounds();
  }
}
