/**
 * The REDS-adder driver, version 1: one vector of up to 256 integers is
 * written, then read back with each value offset by the hardware counter.
 */
module RedsAdderV1 {
  import opened CTypes
  import opened Errno
  import opened AdderArith

  const MAX_VEC_LEN: int := 256
  const INT_SIZE: int := 4

  class RedsAdder {
    /** `int buffer[MAX_VEC_LEN + 1]`. */
    var buffer: array<I32>
    var dataSize: int
    /** The threshold register, written at probe. */
    var thresholdReg: int

    ghost predicate Valid()
      reads this
    {
      buffer.Length == MAX_VEC_LEN + 1 && 0 <= dataSize <= MAX_VEC_LEN
    }

    /** The values written and not yet read. */
    ghost function Pending(): (p: seq<I32>)
      reads this, buffer
      requires Valid()
      ensures |p| == dataSize
    {
      buffer[..dataSize]
    }

    /** Probe: zeroed private data, threshold register set to the default. */
    constructor ()
      ensures Valid() && fresh(buffer) && Pending() == [] && thresholdReg == DEFAULT_THR
    {
      buffer := new I32[MAX_VEC_LEN + 1](_ => 0);
      dataSize := 0;
      thresholdReg := DEFAULT_THR;
    }

    /** `ra_file_open`: forgets any pending vector (and resets the counter). */
    method Open()
      requires Valid()
      modifies this
      ensures Valid() && Pending() == [] && buffer == old(buffer) && thresholdReg == old(thresholdReg)
    {
      dataSize := 0;
    }

    /**
     * `ra_file_write` of `count` bytes whose `count / 4` integers are `user`;
     * `copyFails` stands for a failing copy_from_user.
     */
    method Write(count: nat, user: seq<I32>, copyFails: bool) returns (r: int)
      requires Valid() && |user| == count / INT_SIZE
      modifies this, buffer
      ensures Valid() && buffer == old(buffer) && thresholdReg == old(thresholdReg)
      ensures var accepted := count % INT_SIZE == 0 && count / INT_SIZE <= MAX_VEC_LEN && old(dataSize) == 0;
              && (!accepted ==> r == -EINVAL && Pending() == old(Pending()))
              && (accepted && copyFails ==> r == -EFAULT && Pending() == [])
              && (accepted && !copyFails ==> r == count && Pending() == user)
    {
      var ndata := count / INT_SIZE;
      if count % INT_SIZE != 0 {
        return -EINVAL;
      }
      if ndata > MAX_VEC_LEN {
        return -EINVAL;
      }
      if dataSize != 0 {
        return -EINVAL;
      }
      if copyFails {
        return -EFAULT;
      }
      forall k | 0 <= k < ndata {
        buffer[k] := user[k];
      }
      dataSize := ndata;
      return count;
    }

    /**
     * `ra_file_read` of `count` bytes; `counter` gives the counter register's
     * readings and `copyFails` stands for a failing copy_to_user. The values
     * are processed in place, so a failing copy leaves them offset and pending.
     */
    method Read(count: nat, counter: Counter, copyFails: bool) returns (r: int, out: seq<I32>)
      requires Valid()
      modifies this, buffer
      ensures Valid() && buffer == old(buffer) && thresholdReg == old(thresholdReg)
      ensures var refused := count > MAX_VEC_LEN || old(dataSize) == 0 || count % INT_SIZE != 0;
              var n := if count / INT_SIZE > old(dataSize) then old(dataSize) else count / INT_SIZE;
              && (refused ==> r == 0 && out == [] && Pending() == old(Pending()))
              && (!refused && copyFails ==>
                    r == -EFAULT && out == []
                    && Pending() == Encrypted(old(Pending())[..n], counter) + old(Pending())[n..])
              && (!refused && !copyFails ==>
                    r == n * INT_SIZE && out == Encrypted(old(Pending())[..n], counter) && Pending() == [])
    {
      if count > MAX_VEC_LEN {
        return 0, [];
      }
      if dataSize == 0 {
        return 0, [];
      }
      if count % INT_SIZE != 0 {
        return 0, [];
      }
      var ndata := count / INT_SIZE;
      if ndata > dataSize {
        ndata := dataSize;
      }
      ghost var p0 := Pending();
      ghost var rest := buffer[ndata..dataSize];
      assert p0 == p0[..ndata] + rest;
      EncryptInPlace(ndata, counter);
      assert buffer[ndata..dataSize] == rest;
      assert Pending() == buffer[..ndata] + buffer[ndata..dataSize];
      if copyFails {
        return -EFAULT, [];
      }
      out := buffer[..ndata];
      dataSize := 0;
      return ndata * INT_SIZE, out;
    }

    /** The loop of `ra_file_read`: adds the counter readings to the first `n` values of the buffer. */
    method EncryptInPlace(n: nat, counter: Counter)
      requires buffer.Length == MAX_VEC_LEN + 1 && n <= MAX_VEC_LEN
      modifies buffer
      ensures buffer[..n] == Encrypted(old(buffer[..n]), counter) && buffer[n..] == old(buffer[n..])
    {
      ghost var taken := buffer[..n];
      var i := 0;
      while i < n
        invariant 0 <= i <= n
        invariant |taken| == n
        invariant buffer[..i] == Encrypted(taken[..i], counter)
        invariant buffer[i..n] == taken[i..]
        invariant buffer[n..] == old(buffer[n..])
      {
        buffer[i] := ToI32(buffer[i] + counter(i));
        i := i + 1;
      }
    }
  }

  /**
   * The first check of the version 1 test program: twelve 'A's come back
   * offset by 1, 2, 3, 1, 2, 3, ... with the default threshold.
   */
  method EncryptTwelveAs() returns (r: int, out: seq<I32>)
    ensures r == 48
    ensures out == [66, 67, 68, 66, 67, 68, 66, 67, 68, 66, 67, 68]
  {
    var dev := new RedsAdder();
    var msg: seq<I32> := [65, 65, 65, 65, 65, 65, 65, 65, 65, 65, 65, 65];
    var w := dev.Write(|msg| * INT_SIZE, msg, false);
    r, out := dev.Read(30 * INT_SIZE, ThresholdCounter(DEFAULT_THR), false);
  }

  /**
   * The protocol checks of the version 1 test program: a second write before
   * the read is refused, a read with nothing pending gives 0, and a write or
   * read of a size that is not a whole number of integers is refused.
   */
  method ProtocolChecks() returns (secondWrite: int, emptyRead: int, oddWrite: int, oddRead: int)
    ensures secondWrite == -EINVAL && emptyRead == 0
    ensures oddWrite == -EINVAL && oddRead == 0
  {
    var dev := new RedsAdder();
    var msg: seq<I32> := [65, 65, 65, 65, 65, 65, 65, 65, 65, 65, 65, 65];
    var c := ThresholdCounter(DEFAULT_THR);
    var r := dev.Write(48, msg, false);
    assert dev.Pending() == msg;
    secondWrite := dev.Write(48, msg, false);
    var out;
    r, out := dev.Read(120, c, false);
    assert dev.Pending() == [];
    emptyRead, out := dev.Read(120, c, false);
    oddWrite := dev.Write(49, msg, false);
    r := dev.Write(48, msg, false);
    assert dev.Pending() == msg;
    oddRead, out := dev.Read(119, c, false);
  }

  /** A read of four integers of a five-integer vector gives the first four, offset by 1, 2, 3, 1. */
  method PartialRead() returns (partial: seq<I32>)
    ensures partial == [67, 68, 69, 67]
  {
    var dev := new RedsAdder();
    var msg: seq<I32> := [66, 66, 66, 66, 66];
    var r := dev.Write(20, msg, false);
    r, partial := dev.Read(16, ThresholdCounter(DEFAULT_THR), false);
  }
}
