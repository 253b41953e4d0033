/**
 * The parrot character device: bytes written at the file position are kept
 * in a kernel buffer that doubles its capacity as needed, and are read back
 * from the file position.
 */
module Parrot {
  import opened CTypes
  import opened Errno
  import opened Wrappers

  const START_BUFFER_CAPACITY: int := 8
  const MAX_BUFFER_CAPACITY: int := 1024

  /** The capacities the buffer can take: 8 doubled up to 1024. */
  predicate IsCapacity(c: int)
  {
    c == 8 || c == 16 || c == 32 || c == 64 || c == 128 || c == 256 || c == 512 || c == 1024
  }

  /** The `while (new_capacity < need) new_capacity *= 2` part of the growth loop. */
  function Doubled(c: nat, need: nat): (r: nat)
    requires c > 0
    ensures r >= need && r >= c
    decreases if c < need then need - c else 0
  {
    if c >= need then c else Doubled(2 * c, need)
  }

  /** The capacity the do-while loop of `parrot_write` computes: doubled at least once. */
  function GrownCapacity(capacity: nat, need: nat): nat
    requires capacity > 0
  {
    Doubled(2 * capacity, need)
  }

  /**
   * The capacity after the growth step of `parrot_write` as written, for a
   * write ending at byte `need` (allocation assumed to succeed); None for
   * -ENOMEM. Nothing stops the doubling at the maximum capacity.
   */
  function GrowAsWritten(capacity: nat, need: nat): (r: Option<nat>)
    requires capacity > 0
    ensures r.None? <==> need >= capacity && capacity == MAX_BUFFER_CAPACITY
    ensures r.Some? ==> need < r.value || (need == r.value && need > capacity)
    ensures r.Some? ==> capacity <= r.value
  {
    if need < capacity then Some(capacity)
    else if capacity == MAX_BUFFER_CAPACITY then None
    else Some(GrownCapacity(capacity, need))
  }

  /** The growth step corrected to refuse a capacity beyond the maximum. */
  function Grow(capacity: nat, need: nat): (r: Option<nat>)
    requires capacity > 0
    ensures r.Some? ==> need <= r.value && capacity <= r.value
    ensures r.Some? && r.value != capacity ==> r.value <= MAX_BUFFER_CAPACITY
    ensures need >= capacity && need > MAX_BUFFER_CAPACITY ==> r.None?
  {
    if need < capacity then Some(capacity)
    else if capacity == MAX_BUFFER_CAPACITY then None
    else
      var c := GrownCapacity(capacity, need);
      if c > MAX_BUFFER_CAPACITY then None else Some(c)
  }

  /** The doubling reaches `need` and stays within the capacities while `need` is at most the maximum. */
  lemma {:induction false} DoubledIsCapacity(c: nat, need: nat)
    requires IsCapacity(c) && need <= MAX_BUFFER_CAPACITY
    ensures IsCapacity(Doubled(c, need)) && Doubled(c, need) >= need && Doubled(c, need) >= c
    decreases if c < need then need - c else 0
  {
    if c < need {
      DoubledIsCapacity(2 * c, need);
    }
  }

  /** Beyond the maximum the doubling overshoots it. */
  lemma {:induction false} DoubledBeyondMax(c: nat, need: nat)
    requires c > 0 && need > MAX_BUFFER_CAPACITY
    ensures Doubled(c, need) > MAX_BUFFER_CAPACITY
    decreases if c < need then need - c else 0
  {
    if c < need {
      DoubledBeyondMax(2 * c, need);
    }
  }

  /**
   * The corrected growth succeeds exactly when the write fits the current
   * buffer or ends within the maximum capacity while the buffer is not yet at
   * it; the capacity it gives holds the write and is one of the capacities.
   */
  lemma GrowSpec(capacity: nat, need: nat)
    requires IsCapacity(capacity)
    ensures Grow(capacity, need).Some? <==>
              need < capacity || (capacity < MAX_BUFFER_CAPACITY && need <= MAX_BUFFER_CAPACITY)
    ensures Grow(capacity, need).Some? ==>
              IsCapacity(Grow(capacity, need).value) && need <= Grow(capacity, need).value
              && capacity <= Grow(capacity, need).value
  {
    if need >= capacity && capacity < MAX_BUFFER_CAPACITY {
      if need <= MAX_BUFFER_CAPACITY {
        DoubledIsCapacity(2 * capacity, need);
      } else {
        DoubledBeyondMax(2 * capacity, need);
      }
    }
  }

  /** As written, a 2000-byte write into the initial 8-byte buffer grows it to 2048 bytes. */
  lemma GrowAsWrittenPassesMax()
    ensures GrowAsWritten(START_BUFFER_CAPACITY, 2000) == Some(2048)
    ensures GrowAsWritten(512, 1500) == Some(2048)
    ensures Grow(START_BUFFER_CAPACITY, 2000) == None
  {
    assert Doubled(1024, 2000) == 2048;
    assert Doubled(16, 2000) == 2048 by {
      assert Doubled(16, 2000) == Doubled(32, 2000) == Doubled(64, 2000) == Doubled(128, 2000);
      assert Doubled(128, 2000) == Doubled(256, 2000) == Doubled(512, 2000) == Doubled(1024, 2000);
    }
  }

  /** The buffer size after a write of `count` bytes at `ppos`, as written: `size += count`. */
  function SizeAfterWriteAsWritten(size: nat, ppos: nat, count: nat): (r: nat)
    ensures count > 0 ==> r > size
  {
    size + count
  }

  /** The size corrected to the end of the data: the furthest byte written so far. */
  function SizeAfterWrite(size: nat, ppos: nat, count: nat): (s: nat)
    ensures s >= size && s >= ppos + count
    ensures s == size || s == ppos + count
  {
    if ppos + count > size then ppos + count else size
  }

  /**
   * Writing 5 bytes at 0 twice (with a seek back to 0 in between) gives, as
   * written, a size of 10 in the 8-byte buffer, so a following read of 10
   * bytes at 0 copies past the allocation; corrected, the size stays 5.
   */
  lemma SizeAsWrittenPassesCapacity()
    ensures var s1 := SizeAfterWriteAsWritten(0, 0, 5);
            GrowAsWritten(START_BUFFER_CAPACITY, 0 + 5) == Some(START_BUFFER_CAPACITY)
            && SizeAfterWriteAsWritten(s1, 0, 5) > START_BUFFER_CAPACITY
    ensures SizeAfterWrite(SizeAfterWrite(0, 0, 5), 0, 5) == 5
  {
  }

  class ParrotBuffer {
    var data: array<U8>
    var size: nat
    var capacity: nat

    ghost predicate Valid()
      reads this
    {
      data.Length == capacity && IsCapacity(capacity) && size <= capacity
    }

    /** The bytes held, from file position 0 to the end of the data. */
    ghost function Contents(): (c: seq<U8>)
      reads this, data
      requires Valid()
      ensures |c| == size
    {
      data[..size]
    }

    /** `parrot_init`: an empty buffer of 8 bytes. */
    constructor ()
      ensures Valid() && fresh(data) && Contents() == [] && capacity == START_BUFFER_CAPACITY
    {
      data := new U8[START_BUFFER_CAPACITY](_ => 0);
      size := 0;
      capacity := START_BUFFER_CAPACITY;
    }

    /**
     * `parrot_read` of up to `count` bytes at file position `ppos`;
     * `copyFails` stands for a failing copy_to_user. Gives the return value,
     * the bytes copied and the new file position.
     */
    method Read(count: nat, ppos: nat, copyFails: bool) returns (r: int, out: seq<U8>, newPpos: nat)
      requires Valid()
      ensures ppos >= size ==> r == 0 && out == [] && newPpos == ppos
      ensures ppos < size && copyFails ==> r == -EFAULT && out == [] && newPpos == ppos
      ensures ppos < size && !copyFails ==>
                var n := if ppos + count > size then size - ppos else count;
                r == n && out == Contents()[ppos..ppos + n] && newPpos == ppos + n
    {
      if ppos >= size {
        return 0, [], ppos;
      }
      var n := count;
      if ppos + n > size {
        n := size - ppos;
      }
      if copyFails {
        return -EFAULT, [], ppos;
      }
      return n, data[ppos..ppos + n], ppos + n;
    }

    /**
     * `parrot_write` of the bytes `src` at file position `ppos`, with the
     * capacity and size corrected as `Grow` and `SizeAfterWrite` describe;
     * `allocFails` and `copyFails` stand for a failing krealloc and a failing
     * copy_from_user. A failing copy happens after the buffer has grown.
     */
    method Write(src: seq<U8>, ppos: nat, allocFails: bool, copyFails: bool) returns (r: int, newPpos: nat)
      requires Valid()
      modifies this, data
      ensures Valid() && data.Length >= old(capacity) && (data == old(data) || fresh(data))
      ensures var need := ppos + |src|;
              var grown := Grow(old(capacity), need);
              var realloc := need >= old(capacity);
              if grown.None? || (realloc && allocFails) then
                r == -ENOMEM && newPpos == ppos && data == old(data) && capacity == old(capacity)
                && size == old(size) && unchanged(old(data))
              else
                capacity == grown.value
                && (forall k :: 0 <= k < old(capacity) && !(ppos <= k < need) ==> data[k] == old(data[k]))
                && (copyFails ==> r == -EFAULT && newPpos == ppos && size == old(size))
                && (!copyFails ==> r == |src| && newPpos == need && size == SizeAfterWrite(old(size), ppos, |src|)
                                   && data[ppos..need] == src)
      ensures var need := ppos + |src|;
              (Grow(old(capacity), need).Some? && !(need >= old(capacity) && allocFails) && !copyFails
               && ppos == old(size)) ==> Contents() == old(Contents()) + src
    {
      var count := |src|;
      var rc := GrowFor(ppos + count, allocFails);
      if rc != 0 {
        return rc, ppos;
      }
      if copyFails {
        return -EFAULT, ppos;
      }
      ghost var kept := data[..size];
      assert kept == old(Contents());
      CopyIn(src, ppos);
      size := SizeAfterWrite(size, ppos, count);
      if ppos == old(size) {
        AppendedAtEnd(data[..], kept, src, ppos);
      }
      return count, ppos + count;
    }

    /** The growth step of `parrot_write` for a write ending at byte `need`. */
    method GrowFor(need: nat, allocFails: bool) returns (rc: int)
      requires Valid()
      modifies this
      ensures Valid() && size == old(size) && (data == old(data) || fresh(data))
      ensures var grown := Grow(old(capacity), need);
              if grown.None? || (need >= old(capacity) && allocFails) then
                rc == -ENOMEM && data == old(data) && capacity == old(capacity)
              else
                rc == 0 && capacity == grown.value && need <= capacity && capacity >= old(capacity)
                && data[..old(capacity)] == old(data[..])
    {
      GrowSpec(capacity, need);
      if need >= capacity {
        if capacity == MAX_BUFFER_CAPACITY {
          return -ENOMEM;
        }
        var newCapacity := capacity;
        newCapacity := newCapacity * 2;
        while newCapacity < need
          invariant newCapacity > 0
          invariant Doubled(newCapacity, need) == GrownCapacity(capacity, need)
          decreases need - newCapacity
        {
          newCapacity := newCapacity * 2;
        }
        if newCapacity > MAX_BUFFER_CAPACITY {
          return -ENOMEM;
        }
        if allocFails {
          return -ENOMEM;
        }
        var oldData := data;
        data := new U8[newCapacity](i reads oldData => if 0 <= i < oldData.Length then oldData[i] else 0);
        capacity := newCapacity;
      }
      return 0;
    }

    /** `copy_from_user` into the buffer at `ppos`. */
    method CopyIn(src: seq<U8>, ppos: nat)
      requires Valid() && ppos + |src| <= capacity
      modifies data
      ensures data[ppos..ppos + |src|] == src
      ensures forall k :: 0 <= k < data.Length && !(ppos <= k < ppos + |src|) ==> data[k] == old(data[k])
    {
      forall k | ppos <= k < ppos + |src| {
        data[k] := src[k - ppos];
      }
    }
  }

  /** A buffer that kept its first `n` bytes `kept` and then got `src` at `n` holds `kept + src` in front. */
  lemma AppendedAtEnd(now: seq<U8>, kept: seq<U8>, src: seq<U8>, n: nat)
    requires |kept| == n && n + |src| <= |now|
    requires forall k :: 0 <= k < n ==> now[k] == kept[k]
    requires now[n..n + |src|] == src
    ensures now[..n + |src|] == kept + src
  {
    forall k | 0 <= k < n + |src|
      ensures now[k] == (kept + src)[k]
    {
      if k >= n {
        assert now[n..n + |src|][k - n] == src[k - n];
      }
    }
  }

  /**
   * The parrot test program: the payload is written in chunks of the given
   * sizes (the last one cut to what remains, and the rest in one write when
   * the sizes run out), the file position is set back to 0 and the data is
   * read back 10 bytes at a time until a read returns 0; what is read back is
   * the payload.
   */
  method ChunkedEcho(payload: seq<U8>, chunks: seq<nat>) returns (readBack: seq<U8>)
    requires |payload| < MAX_BUFFER_CAPACITY
    ensures readBack == payload
  {
    var dev := new ParrotBuffer();
    WriteInChunks(dev, payload, chunks);
    readBack := ReadAll(dev);
  }

  /**
   * The write half of the test program on a fresh buffer: every chunk is
   * written at the end of what the previous ones wrote.
   */
  method WriteInChunks(dev: ParrotBuffer, payload: seq<U8>, chunks: seq<nat>)
    requires dev.Valid() && dev.Contents() == [] && |payload| < MAX_BUFFER_CAPACITY
    modifies dev, dev.data
    ensures dev.Valid() && dev.Contents() == payload
  {
    var i, j := 0, 0;
    while i < |payload|
      invariant 0 <= i <= |payload| && dev.Valid()
      invariant dev.data == old(dev.data) || fresh(dev.data)
      invariant dev.size == i && dev.Contents() == payload[..i]
      decreases |payload| - i, |chunks| - j
    {
      var nbToWrite := if j < |chunks| then chunks[j] else |payload| - i;
      if i + nbToWrite > |payload| {
        nbToWrite := |payload| - i;
      }
      GrowSpec(dev.capacity, i + nbToWrite);
      assert Grow(dev.capacity, i + nbToWrite).Some?;
      var chunk := payload[i..i + nbToWrite];
      assert payload[..i + nbToWrite] == payload[..i] + chunk;
      var r, ppos := dev.Write(chunk, i, false, false);
      assert dev.Contents() == payload[..i] + chunk;
      i := i + nbToWrite;
      j := j + 1;
    }
    assert payload[..i] == payload;
  }

  /** The read half of the test program: 10 bytes at a time from position 0 until a read returns 0. */
  method ReadAll(dev: ParrotBuffer) returns (readBack: seq<U8>)
    requires dev.Valid()
    ensures readBack == dev.Contents()
  {
    readBack := [];
    var ppos := 0;
    while true
      invariant 0 <= ppos <= dev.size && readBack == dev.Contents()[..ppos]
      decreases dev.size - ppos
    {
      var r, out, next := dev.Read(10, ppos, false);
      if r == 0 {
        break;
      }
      assert dev.Contents()[..next] == dev.Contents()[..ppos] + out;
      readBack := readBack + out;
      ppos := next;
    }
    assert dev.Contents()[..ppos] == dev.Contents();
  }
}
