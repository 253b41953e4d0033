/**
 * The REDS-adder driver, version 3: integers written are queued in a KFIFO;
 * a read takes values from it and encrypts (adds) or decrypts (subtracts)
 * the hardware counter, the operation and the counter threshold being set
 * through sysfs under a mutex that a read holds.
 */
module RedsAdderV3 {
  import opened CTypes
  import opened Errno
  import opened AdderArith

  /** Largest read, in bytes, and size of the temporary buffer, in integers. */
  const MAX_VEC_LEN: int := 256
  const INT_SIZE: int := 4
  /** The KFIFO holds `MAX_VEC_LEN * sizeof(int)` bytes. */
  const FIFO_BYTES: int := MAX_VEC_LEN * INT_SIZE

  /** What a read does: return to the caller, or sleep (on the mutex or until enough data arrives). */
  datatype ReadOutcome = Returned(rc: int) | Blocked

  /** The vector a read gives for the selected operation. */
  function Processed(encrypt: bool, v: seq<I32>, counter: Counter): (r: seq<I32>)
    ensures |r| == |v|
  {
    if encrypt then Encrypted(v, counter) else Decrypted(v, counter)
  }

  /** `strncmp(buf, word, strlen(word)) == 0`: the input starts with the word. */
  predicate StartsWith(buf: string, word: string)
  {
    |buf| >= |word| && buf[..|word|] == word
  }

  class RedsAdder {
    /** The integers queued in the KFIFO, oldest first. */
    var fifo: seq<I32>
    /** `int tmp_buf[MAX_VEC_LEN]`. */
    var tmpBuf: array<I32>
    var threshold: int
    /** The threshold register of the device. */
    var thresholdReg: int
    var encrypt: bool
    /** `read_mutex` left locked by a caller that returned without releasing it. */
    var readMutexLocked: bool

    ghost predicate Valid()
      reads this
    {
      tmpBuf.Length == MAX_VEC_LEN && |fifo| * INT_SIZE <= FIFO_BYTES && 0 < threshold < 0x8000_0000
    }

    /** Probe: empty KFIFO, default threshold in the field and the register, encryption selected. */
    constructor ()
      ensures Valid() && fresh(tmpBuf) && fifo == [] && threshold == DEFAULT_THR && thresholdReg == DEFAULT_THR
      ensures encrypt && !readMutexLocked
    {
      fifo := [];
      tmpBuf := new I32[MAX_VEC_LEN](_ => 0);
      threshold := DEFAULT_THR;
      thresholdReg := DEFAULT_THR;
      encrypt := true;
      readMutexLocked := false;
    }

    /**
     * `ra_file_write` of `count` bytes whose `count / 4` integers are `user`;
     * `copied` is the number of bytes kfifo_from_user manages to copy before a
     * fault. The bytes copied stay in the KFIFO even when the call fails.
     */
    method Write(count: nat, user: seq<I32>, copied: nat) returns (r: int)
      requires Valid() && |user| == count / INT_SIZE && copied <= count
      modifies this
      ensures Valid() && tmpBuf == old(tmpBuf) && threshold == old(threshold) && thresholdReg == old(thresholdReg)
      ensures encrypt == old(encrypt) && readMutexLocked == old(readMutexLocked)
      ensures var accepted := count % INT_SIZE == 0 && count <= FIFO_BYTES - |old(fifo)| * INT_SIZE;
              && (!accepted ==> r == -EINVAL && fifo == old(fifo))
              && (accepted && copied < count ==> r == -EFAULT && fifo == old(fifo) + user[..copied / INT_SIZE])
              && (accepted && copied == count ==> r == count && fifo == old(fifo) + user)
    {
      if count % INT_SIZE != 0 {
        return -EINVAL;
      }
      if count > FIFO_BYTES - |fifo| * INT_SIZE {
        return -EINVAL;
      }
      fifo := fifo + user[..copied / INT_SIZE];
      if copied != count {
        return -EFAULT;
      }
      return count;
    }

    /**
     * `ra_file_read` of `count` bytes; `counter` gives the counter register's
     * readings after the reset the read performs, `interrupted` says whether a
     * wait for data is cut short by a signal, `copyFails` stands for a failing
     * copy_to_user. Data taken from the KFIFO is gone even when the call fails.
     */
    method Read(count: nat, counter: Counter, interrupted: bool, copyFails: bool)
      returns (outcome: ReadOutcome, out: seq<I32>)
      requires Valid()
      modifies this, tmpBuf
      ensures Valid() && tmpBuf == old(tmpBuf) && threshold == old(threshold) && thresholdReg == old(thresholdReg)
      ensures encrypt == old(encrypt) && readMutexLocked == old(readMutexLocked)
      ensures var n := count / INT_SIZE;
              if count > MAX_VEC_LEN || count % INT_SIZE != 0 then
                outcome == Returned(0) && out == [] && fifo == old(fifo)
              else if readMutexLocked || (n > |old(fifo)| && !interrupted) then
                outcome == Blocked && out == [] && fifo == old(fifo)
              else if n > |old(fifo)| then
                outcome == Returned(-EFAULT) && out == [] && fifo == []
              else
                fifo == old(fifo)[n..]
                && (copyFails ==> outcome == Returned(-EFAULT) && out == [])
                && (!copyFails ==> outcome == Returned(count) && out == Processed(encrypt, old(fifo)[..n], counter))
    {
      if count > MAX_VEC_LEN {
        return Returned(0), [];
      }
      if count % INT_SIZE != 0 {
        return Returned(0), [];
      }
      if readMutexLocked {
        return Blocked, [];
      }
      var n := count / INT_SIZE;
      if n > |fifo| && !interrupted {
        return Blocked, [];
      }
      if n > |fifo| {
        fifo := [];
        return Returned(-EFAULT), [];
      }
      ghost var taken := fifo[..n];
      forall k | 0 <= k < n {
        tmpBuf[k] := fifo[k];
      }
      fifo := fifo[n..];
      if encrypt {
        EncryptInPlace(n, counter);
      } else {
        DecryptInPlace(n, counter);
      }
      if copyFails {
        return Returned(-EFAULT), [];
      }
      return Returned(count), tmpBuf[..n];
    }

    /** The encrypting loop: adds the counter readings to the first `n` values of the buffer. */
    method EncryptInPlace(n: nat, counter: Counter)
      requires tmpBuf.Length == MAX_VEC_LEN && n <= MAX_VEC_LEN
      modifies tmpBuf
      ensures tmpBuf[..n] == Encrypted(old(tmpBuf[..n]), counter) && tmpBuf[n..] == old(tmpBuf[n..])
    {
      ghost var taken := tmpBuf[..n];
      var i := 0;
      while i < n
        invariant 0 <= i <= n
        invariant |taken| == n
        invariant tmpBuf[..i] == Encrypted(taken[..i], counter)
        invariant tmpBuf[i..n] == taken[i..]
        invariant tmpBuf[n..] == old(tmpBuf[n..])
      {
        tmpBuf[i] := ToI32(tmpBuf[i] + counter(i));
        i := i + 1;
      }
    }

    /** The decrypting loop: subtracts the counter readings from the first `n` values of the buffer. */
    method DecryptInPlace(n: nat, counter: Counter)
      requires tmpBuf.Length == MAX_VEC_LEN && n <= MAX_VEC_LEN
      modifies tmpBuf
      ensures tmpBuf[..n] == Decrypted(old(tmpBuf[..n]), counter) && tmpBuf[n..] == old(tmpBuf[n..])
    {
      ghost var taken := tmpBuf[..n];
      var i := 0;
      while i < n
        invariant 0 <= i <= n
        invariant |taken| == n
        invariant tmpBuf[..i] == Decrypted(taken[..i], counter)
        invariant tmpBuf[i..n] == taken[i..]
        invariant tmpBuf[n..] == old(tmpBuf[n..])
      {
        tmpBuf[i] := ToI32(tmpBuf[i] - counter(i));
        i := i + 1;
      }
    }

    /**
     * `store_operation` as written: an input that is neither operation gives
     * -EINVAL without releasing the mutex it took. `readInProgress` says
     * whether a read holds the mutex.
     */
    method StoreOperationAsWritten(buf: string, readInProgress: bool) returns (r: int)
      requires Valid()
      modifies this
      ensures Valid() && tmpBuf == old(tmpBuf) && fifo == old(fifo) && threshold == old(threshold) && thresholdReg == old(thresholdReg)
      ensures if readInProgress || old(readMutexLocked) then
                r == -EINVAL && encrypt == old(encrypt) && readMutexLocked == old(readMutexLocked)
              else if StartsWith(buf, "encrypt") then r == |buf| && encrypt && !readMutexLocked
              else if StartsWith(buf, "decrypt") then r == |buf| && !encrypt && !readMutexLocked
              else r == -EINVAL && encrypt == old(encrypt) && readMutexLocked
    {
      if readInProgress || readMutexLocked {
        return -EINVAL;
      }
      readMutexLocked := true;
      if StartsWith(buf, "encrypt") {
        encrypt := true;
      } else {
        if StartsWith(buf, "decrypt") {
          encrypt := false;
        } else {
          return -EINVAL;
        }
      }
      readMutexLocked := false;
      return |buf|;
    }

    /** `store_operation` corrected to release the mutex on the -EINVAL path as well. */
    method StoreOperation(buf: string, readInProgress: bool) returns (r: int)
      requires Valid()
      modifies this
      ensures Valid() && tmpBuf == old(tmpBuf) && fifo == old(fifo) && threshold == old(threshold) && thresholdReg == old(thresholdReg)
      ensures readMutexLocked == old(readMutexLocked)
      ensures if readInProgress || old(readMutexLocked) then r == -EINVAL && encrypt == old(encrypt)
              else if StartsWith(buf, "encrypt") then r == |buf| && encrypt
              else if StartsWith(buf, "decrypt") then r == |buf| && !encrypt
              else r == -EINVAL && encrypt == old(encrypt)
    {
      if readInProgress || readMutexLocked {
        return -EINVAL;
      }
      readMutexLocked := true;
      if StartsWith(buf, "encrypt") {
        encrypt := true;
      } else {
        if StartsWith(buf, "decrypt") {
          encrypt := false;
        } else {
          readMutexLocked := false;
          return -EINVAL;
        }
      }
      readMutexLocked := false;
      return |buf|;
    }

    /**
     * `store_threshold` of a `count`-byte input that `kstrtoint` parses as
     * `parsed`, an `int` as `kstrtoint` gives it (out-of-range text is its
     * -ERANGE): a positive threshold is kept and written to the register.
     */
    method StoreThreshold(count: nat, parsed: Parsed, readInProgress: bool) returns (r: int)
      requires Valid() && (parsed.Parsed? ==> -0x8000_0000 <= parsed.value < 0x8000_0000)
      modifies this
      ensures Valid() && tmpBuf == old(tmpBuf) && fifo == old(fifo) && encrypt == old(encrypt) && readMutexLocked == old(readMutexLocked)
      ensures if readInProgress || old(readMutexLocked) then
                r == -EINVAL && threshold == old(threshold) && thresholdReg == old(thresholdReg)
              else match parsed
                case ParseError(code) => r == code && threshold == old(threshold) && thresholdReg == old(thresholdReg)
                case Parsed(v) =>
                  if v <= 0 then
                    r == -EINVAL && threshold == old(threshold) && thresholdReg == old(thresholdReg)
                  else r == count && threshold == v && thresholdReg == v
    {
      if readInProgress || readMutexLocked {
        return -EINVAL;
      }
      match parsed {
        case ParseError(code) =>
          return code;
        case Parsed(tmp) =>
          if tmp <= 0 {
            return -EINVAL;
          }
          threshold := tmp;
          thresholdReg := threshold;
          return count;
      }
    }
  }

  /** How `store_operation` reads the words the test programs write. */
  lemma OperationWords()
    ensures StartsWith("decrypt\n", "decrypt") && !StartsWith("decrypt\n", "encrypt")
    ensures StartsWith("decrypt", "decrypt") && !StartsWith("decrypt", "encrypt")
  {
    assert "decrypt\n"[..7] == "decrypt";
    assert "decrypt\n"[0] != "encrypt"[0] && "decrypt"[0] != "encrypt"[0];
  }

  /** The vector of the version 3 test program, decrypted with the default threshold of 3. */
  lemma DecryptedVector()
    ensures Decrypted([11, 12, 13, 14, 15, 16, 17], ThresholdCounter(DEFAULT_THR)) == [10, 10, 10, 13, 13, 13, 16]
  {
    var c := ThresholdCounter(DEFAULT_THR);
    var d := Decrypted([11, 12, 13, 14, 15, 16, 17], c);
    assert c(0) == 1 && c(1) == 2 && c(2) == 3 && c(3) == 1 && c(4) == 2 && c(5) == 3 && c(6) == 1;
    assert d[0] == 10 && d[1] == 10 && d[2] == 10 && d[3] == 13 && d[4] == 13 && d[5] == 13 && d[6] == 16;
  }

  /** The decryption check of the version 3 test program. */
  method DecryptTestVector() returns (outcome: ReadOutcome, out: seq<I32>)
    ensures outcome == Returned(28)
    ensures out == [10, 10, 10, 13, 13, 13, 16]
  {
    var dev := new RedsAdder();
    OperationWords();
    var r := dev.StoreOperation("decrypt\n", false);
    assert !dev.encrypt && !dev.readMutexLocked && dev.fifo == [];
    var msg: seq<I32> := [11, 12, 13, 14, 15, 16, 17];
    r := dev.Write(28, msg, 28);
    assert dev.fifo == msg;
    var c := ThresholdCounter(DEFAULT_THR);
    outcome, out := dev.Read(28, c, false, false);
    assert msg[..7] == msg;
    DecryptedVector();
  }

  /**
   * Encrypting a vector on the device, then decrypting the result with the
   * same counter readings, gives the vector back.
   */
  method EncryptDecryptRoundTrip(v: seq<I32>, counter: Counter) returns (encrypted: seq<I32>, back: seq<I32>)
    requires 0 < |v| && |v| * INT_SIZE <= MAX_VEC_LEN
    ensures encrypted == Encrypted(v, counter)
    ensures back == v
  {
    var dev := new RedsAdder();
    encrypted := Transform(dev, v, counter);
    OperationWords();
    var r := dev.StoreOperation("decrypt", false);
    back := Transform(dev, encrypted, counter);
    DecryptEncrypt(v, counter);
  }

  /** One write of the vector `v` to an idle device with an empty KFIFO and one read of it back. */
  method Transform(dev: RedsAdder, v: seq<I32>, counter: Counter) returns (out: seq<I32>)
    requires dev.Valid() && dev.fifo == [] && !dev.readMutexLocked
    requires 0 < |v| && |v| * INT_SIZE <= MAX_VEC_LEN
    modifies dev, dev.tmpBuf
    ensures dev.Valid() && dev.fifo == [] && !dev.readMutexLocked && dev.encrypt == old(dev.encrypt)
    ensures dev.tmpBuf == old(dev.tmpBuf) && dev.threshold == old(dev.threshold)
    ensures out == Processed(dev.encrypt, v, counter)
  {
    var count := 4 * |v|;
    assert count / INT_SIZE == |v| && count % INT_SIZE == 0;
    var r := dev.Write(count, v, count);
    assert dev.fifo == v;
    assert v[..|v|] == v && v[|v|..] == [];
    var outcome;
    outcome, out := dev.Read(count, counter, false, false);
  }

  /**
   * An invalid operation written to sysfs leaves, as written, the mutex held,
   * so that the next read sleeps on it and the threshold can no longer be set;
   * with the mutex released the same read returns its data.
   */
  method OperationLockLeak() returns (asWritten: ReadOutcome, thresholdAsWritten: int, corrected: ReadOutcome)
    ensures asWritten == Blocked && thresholdAsWritten == -EINVAL
    ensures corrected == Returned(4)
  {
    var a := new RedsAdder();
    var r := a.StoreOperationAsWritten("swap", false);
    r := a.Write(4, [1], 4);
    var out;
    asWritten, out := a.Read(4, ThresholdCounter(DEFAULT_THR), false, false);
    thresholdAsWritten := a.StoreThreshold(2, Parsed(5), false);
    var b := new RedsAdder();
    r := b.StoreOperation("swap", false);
    r := b.Write(4, [1], 4);
    corrected, out := b.Read(4, ThresholdCounter(DEFAULT_THR), false, false);
  }
}
