# DE1-SoC embedded-systems labs, modelled in Dafny

This project models the logic of the lab drivers and programs written for the
DE1-SoC board: the Linux character devices, the sysfs attributes and the
userspace programs that poll the board's memory-mapped registers. Each core source file has
its own module:

- `Flifo`: the `flifo` character device. It is a 64-byte ring that works as
  a FIFO or a LIFO of 1-, 2-, 4- or 8-byte values. The ring is an `array`
  that `read`, `write` and `ioctl` update in place.
- `Parrot`: the `parrot` echo device. Its buffer starts at 8 bytes and
  doubles on demand; `read` and `write` work at a file position.
- `RedsAdderV1` and `RedsAdderV3`: the REDS adder. Version 1.1 takes one
  pending vector of ints. Version 3.1 has a 256-int FIFO and the `operation`
  and `threshold` attributes. Both add to each int the next value of a
  hardware counter that wraps at the threshold; version 3.1 can also
  subtract it. `AdderArith` holds the arithmetic they share.
- `Chronometre`: the chronometer's button handler, its lap list and its
  time formatting. `ChronoTest` models the `chrono_test` program that
  decodes the device's output.
- `ShowNumberV1` and `ShowNumberV2`: the two `show_number` drivers. They
  queue numbers written to the device and show them on six seven-segment
  digits. `NumberFilter` holds their shared digit and filtering logic.
- `LedControllerV1` and `LedControllerV4`: the LED controller drivers. A
  periodic work step counts or rotates a 10-bit LED value; version 4 adds
  a push-button interrupt that loads the switches. `LedStep` holds the step
  they share.
- `ScrollingText`: lab 1, exercise 4, text scrolled across six digits.
- `LedSweep`: lab 1, exercise 3, the LED chaser.
- `HexCounterEx1` and `HexCounterEx3`: lab 2, exercises 1 and 3, a
  hexadecimal counter.
- `CapitalQuiz`: lab 2, exercise 4 (poll), the capitals quiz.
- `SevenSeg`, `PushButtons` and `HexRegisters`: the seven-segment table,
  the edge-detecting push-button poll and the display registers that the
  userspace programs share.
- Shared support modules:
  - `CTypes` has the C integer widths and the wrap-around of each narrowing
    assignment;
  - `Errno` has the error codes and the outcome of a `kstrto*` call;
  - `Wrappers` has `Option`.

The hardware is modelled as values the caller supplies:

- register reads;
- the counter readings (`Counter`, reading number `i` after the last reset);
- whether `kmalloc` or a user copy fails;
- what `kstrto*` parses;
- the random draw;
- the tick count.

A driver whose fields change becomes a `class`. Its methods state the new
state through a specification function of the old one, such as `Contents()`,
`Pending()` or `Snapshot()`. Lemmas prove properties of those functions:
round trips, inverses, invariants and bounds. Short methods that take
concrete inputs replay the test programs' expectations on fresh objects.

Wherever the design description and the code disagree, the model follows the
code. For the chronometer, the design describes a pause that keeps the
elapsed time, a fallback lap list that survives a reset during a lap walk, a
blinking LED on each lap and a reset that is refused while running.
`chronometre.c` has none of these:

- its KEY0 `switch` falls through, so KEY0 always ends in RUN with a new
  start tick;
- pause is therefore unreachable, and so is the reset that can only happen
  from pause (`Chronometre.ResetUnreachable`);
- laps live in one kernel list, and nothing blinks.

## Model

| member | source | states |
|---|---|---|
| Flifo.IsSizeValid | material/lab_03/flifo_module/flifo.c:193-203 | the answer is true exactly for value sizes 1, 2, 4 and 8 |
| Flifo.LifoReadIndex | material/lab_03/flifo_module/flifo.c:77 | the corrected LIFO read index is a ring position and is the slot just before `next_in`, modulo 64 |
| Flifo.LifoReadIndexAgrees | material/lab_03/flifo_module/flifo.c:77 | for `0 < next_in < 64` the corrected index and the code's `next_in - 1` are the same slot |
| Flifo.LifoReadIndexAsWrittenOutOfBounds | material/lab_03/flifo_module/flifo.c:77 | at `next_in == 0` the code's index `next_in - 1` is outside the 64-byte ring; the corrected index is slot 63 |
| Flifo.RingAppend | material/lab_03/flifo_module/flifo.c:117-121 | storing a byte at `next_in` extends the ring's contents by that byte at the end |
| Flifo.RingDropFront | material/lab_03/flifo_module/flifo.c:72-75 | advancing the oldest position drops the first stored byte and keeps the rest in order |
| Flifo.TakeStep | material/lab_03/flifo_module/flifo.c:68-90 | one loop iteration moves one byte from the stored contents to the read buffer, from the front in FIFO mode and from the back in LIFO mode |
| Flifo.ReverseEachAppend | material/lab_03/flifo_module/flifo.c:124-140 | reversing value by value distributes over appending one whole value |
| Flifo.ReverseEachStep | material/lab_03/flifo_module/flifo.c:128-139 | after `i + 1` values the LIFO store has appended the `i`-th value's bytes reversed |
| Flifo.ReverseOfReverseEach | material/lab_03/flifo_module/flifo.c:76-140 | reading the whole LIFO store from the top gives the values in reverse order, each with its bytes in their original order |
| Flifo.ReverseTwice | material/lab_03/flifo_module/flifo.c:124-140 | reversing twice gives the original bytes back |
| Flifo.LifoRoundTrip | material/lab_03/flifo_test.c:100-107 | a LIFO read of everything that was just written returns the values last-in first-out and leaves the older contents |
| Flifo.LifoTopValue | material/lab_03/flifo_test.c:190-196 | a LIFO read of one value returns the last value written, with its bytes in order, and the rest stays stored as if that value had not been written |
| Flifo.FifoRoundTrip | material/lab_03/flifo_test.c:88-95 | a FIFO read of the old contents after a write returns them, and then exactly the written bytes remain |
| Flifo.FlifoDevice.constructor | material/lab_03/flifo_module/flifo.c:272-275 | the device starts empty, in FIFO mode, with 1-byte values |
| Flifo.FlifoDevice.ResetList | material/lab_03/flifo_module/flifo.c:208-212 | the contents become empty and mode and value size are kept |
| Flifo.FlifoDevice.PopOldest | material/lab_03/flifo_module/flifo.c:72-87 | FIFO mode hands out the oldest stored byte and removes it from the front |
| Flifo.FlifoDevice.PopNewest | material/lab_03/flifo_module/flifo.c:77-89 | LIFO mode hands out the newest stored byte and removes it from the back, with the corrected index |
| Flifo.FlifoDevice.TakeOne | material/lab_03/flifo_module/flifo.c:70-89 | one byte leaves the front in FIFO mode or the back in LIFO mode |
| Flifo.FlifoDevice.Read | material/lab_03/flifo_module/flifo.c:42-103 | a null buffer, a count that is not a whole number of values or exceeds the stored bytes, an allocation failure or a non-zero position returns 0 and consumes nothing; otherwise `count` bytes are consumed in mode order and returned, or 0 is returned if the copy to user fails |
| Flifo.FlifoDevice.TakeBytes | material/lab_03/flifo_module/flifo.c:68-90 | the loop returns the first `count` bytes in mode order and leaves the remainder stored |
| Flifo.FlifoDevice.Push | material/lab_03/flifo_module/flifo.c:119-121 | one stored byte is appended at the end of the contents |
| Flifo.FlifoDevice.PushReversed | material/lab_03/flifo_module/flifo.c:128-139 | one value's bytes are appended in reverse order |
| Flifo.FlifoDevice.Write | material/lab_03/flifo_module/flifo.c:155-185 | an empty write, one that is not a whole number of values or would pass 64 bytes, an allocation failure or a copy failure returns 0 and changes nothing; otherwise `count` is returned and the bytes are stored by the mode |
| Flifo.FlifoDevice.WriteToList | material/lab_03/flifo_module/flifo.c:112-144 | FIFO mode stores the bytes as written; LIFO mode stores each value reversed |
| Flifo.FlifoDevice.WriteFifo | material/lab_03/flifo_module/flifo.c:117-123 | the bytes are appended in write order across the ring wrap |
| Flifo.FlifoDevice.WriteLifo | material/lab_03/flifo_module/flifo.c:124-140 | the values are appended in order, each with its bytes reversed |
| Flifo.FlifoDevice.Ioctl | material/lab_03/flifo_module/flifo.c:227-256 | RESET, a valid mode change and a valid size change empty the list and return 0; an invalid mode or size returns -1 and changes nothing; an unknown command returns 0 and changes nothing |
| Flifo.MultiReadScenario | material/lab_03/flifo_test.c:155-196 | 8-byte values written and then read back in one read come out in write order in FIFO mode, and in LIFO mode in reverse order with each value's bytes intact |
| Flifo.FullLifoReadIndex | material/lab_03/flifo_module/flifo.c:77-139 | after a full 64-byte LIFO write the code's read index is out of bounds and the corrected index is slot 63 |
| Parrot.Doubled | material/lab_04/parrot_module/parrot.c:88-90 | the doubling loop ends at or above both the need and the capacity it started from |
| Parrot.GrowAsWritten | material/lab_04/parrot_module/parrot.c:78-100 | as written, the growth fails exactly when the need reaches a full 1024-byte buffer; otherwise the capacity covers the need and never shrinks |
| Parrot.Grow | material/lab_04/parrot_module/parrot.c:78-100 | the corrected growth covers the need, never shrinks, never grows past 1024, and refuses a need above 1024 that the buffer cannot hold |
| Parrot.SizeAfterWriteAsWritten | material/lab_04/parrot_module/parrot.c:105 | as written, every non-empty write makes the size larger, even one that only overwrites stored bytes |
| Parrot.DoubledIsCapacity | material/lab_04/parrot_module/parrot.c:88-90 | doubling from a capacity of the form 8·2^k reaches a capacity of that form that covers the need |
| Parrot.DoubledBeyondMax | material/lab_04/parrot_module/parrot.c:88-90 | a need above 1024 makes the doubling loop end above 1024 |
| Parrot.GrowSpec | material/lab_04/parrot_module/parrot.c:78-100 | the corrected growth succeeds exactly when the need is below the capacity, or the capacity is below 1024 and the need is at most 1024; a grown capacity still has the form 8·2^k, covers the need and never shrinks |
| Parrot.GrowAsWrittenPassesMax | material/lab_04/parrot_module/parrot.c:82-97 | the code grows 8 to 2048 for a 2000-byte write and 512 to 2048 for a 1500-byte one; the corrected growth refuses both |
| Parrot.SizeAfterWrite | material/lab_04/parrot_module/parrot.c:105 | the corrected size after a write is the larger of the old size and the written end |
| Parrot.SizeAsWrittenPassesCapacity | material/lab_04/parrot_module/parrot.c:105 | writing 5 bytes twice at position 0 makes the code's size 10, above the capacity of 8; the corrected size is 5 |
| Parrot.ParrotBuffer.constructor | material/lab_04/parrot_module/parrot.c:162-170 | the buffer starts empty with capacity 8 |
| Parrot.ParrotBuffer.Read | material/lab_04/parrot_module/parrot.c:46-61 | a read at or past the end returns 0; a failed copy returns -EFAULT; otherwise it returns min(count, size - ppos) bytes from `ppos` and advances `ppos` by that number |
| Parrot.ParrotBuffer.Write | material/lab_04/parrot_module/parrot.c:75-109 | an impossible growth or a failed reallocation returns -ENOMEM and leaves the buffer unchanged; otherwise the capacity is the grown one, every byte below the old capacity outside the written range is kept, the source bytes are at `ppos` and `ppos` advances; a failed copy returns -EFAULT |
| Parrot.ParrotBuffer.GrowFor | material/lab_04/parrot_module/parrot.c:78-100 | the capacity becomes the grown one and the old bytes are kept, or -ENOMEM is returned and nothing changes |
| Parrot.ParrotBuffer.CopyIn | material/lab_04/parrot_module/parrot.c:102-104 | the source bytes land at `ppos` and every other byte is kept |
| Parrot.AppendedAtEnd | material/lab_04/parrot_module/parrot.c:102-106 | a write at the end of the data extends the contents by the written bytes |
| Parrot.ChunkedEcho | material/lab_04/parrot_module/parrot_test.c:38-80 | bytes written in arbitrary chunks from offset 0 and then read back from 0 in one pass are exactly the bytes written |
| Parrot.WriteInChunks | material/lab_04/parrot_module/parrot_test.c:38-60 | sequential chunked writes to an empty buffer leave exactly the payload as its contents |
| Parrot.ReadAll | material/lab_04/parrot_module/parrot_test.c:62-80 | reading from 0 until a read returns 0 yields the whole contents |
| AdderArith.Encrypted | material/reds_adder__1.1/reds_adder_v1.c:371-381 | encryption gives one int per input int; `AdderArith.DecryptEncrypt` proves that decryption undoes it |
| AdderArith.Decrypted | material/reds_adder__3.1/reds_adder_v3.c:423-446 | decryption gives one int per input int; `AdderArith.DecryptEncrypt` proves that it undoes encryption |
| AdderArith.ThresholdCounter | material/reds_adder__1.1/reds_adder_v1.c:371-381 | the hardware counter with threshold `thr` yields values from 1 to `thr` |
| AdderArith.WrapAddSub | material/reds_adder__3.1/reds_adder_v3.c:423-446 | adding and then subtracting the same value with 32-bit wrap-around gives the int back, in either order |
| AdderArith.DecryptEncrypt | material/reds_adder__3.1/reds_adder_v3.c:423-446 | decrypting an encrypted vector with the same counter readings gives the vector back, and the other way round |
| AdderArith.EncryptedPrefix | material/reds_adder__1.1/reds_adder_v1.c:371-381 | processing the first `k` ints gives the first `k` results of processing the whole vector |
| AdderArith.EncryptedSmall | material/reds_adder__1.1/test_v1.c:90-98 | with threshold `thr` and small inputs, output `i` is input `i` plus `i mod thr` plus 1 |
| RedsAdderV1.RedsAdder.constructor | material/reds_adder__1.1/reds_adder_v1.c:641 | the device starts with nothing pending and threshold 3 |
| RedsAdderV1.RedsAdder.Open | material/reds_adder__1.1/reds_adder_v1.c:257 | opening discards any pending vector |
| RedsAdderV1.RedsAdder.Write | material/reds_adder__1.1/reds_adder_v1.c:413-473 | a count that is not a multiple of 4, is over 256 ints or arrives while a vector is pending gives -EINVAL and keeps the pending vector; a failed copy gives -EFAULT; otherwise the ints become the pending vector and `count` is returned |
| RedsAdderV1.RedsAdder.Read | material/reds_adder__1.1/reds_adder_v1.c:309-396 | a count over 256, one that is not a multiple of 4, or nothing pending returns 0 and keeps the vector; otherwise min(count/4, pending) ints are returned, each plus the next counter reading, and nothing stays pending; a failed copy gives -EFAULT |
| RedsAdderV1.RedsAdder.EncryptInPlace | material/reds_adder__1.1/reds_adder_v1.c:371-381 | the first `n` buffer slots are replaced by their encryption and the rest are untouched |
| RedsAdderV1.EncryptTwelveAs | material/reds_adder__1.1/test_v1.c:80-98 | twelve 'A' (65) ints read back as 66, 67, 68 repeated four times, with 48 bytes returned |
| RedsAdderV1.ProtocolChecks | material/reds_adder__1.1/test_v1.c:120-139 | a second write while pending and an odd-sized write give -EINVAL; an empty read and an odd-sized read give 0 |
| RedsAdderV1.PartialRead | material/reds_adder__1.1/test_v1.c:141-160 | a read shorter than the pending vector returns its first ints encrypted, and the rest is discarded |
| RedsAdderV3.Processed | material/reds_adder__3.1/reds_adder_v3.c:423-446 | the processed vector has the input's length (encrypt or decrypt by mode) |
| RedsAdderV3.RedsAdder.constructor | material/reds_adder__3.1/reds_adder_v3.c:798-800 | the device starts with an empty FIFO, threshold 3 and encryption selected |
| RedsAdderV3.RedsAdder.Write | material/reds_adder__3.1/reds_adder_v3.c:472-518 | a count that is not a multiple of 4 or exceeds the free FIFO space gives -EINVAL and leaves the FIFO; a copy that faults after `copied` bytes gives -EFAULT and still appends the ints copied whole; a full copy appends all the ints at the tail and returns `count` |
| RedsAdderV3.RedsAdder.Read | material/reds_adder__3.1/reds_adder_v3.c:355-459 | a count over 256 or not a multiple of 4 returns 0; while the lock is held, or too few ints are queued, the read blocks; if that wait is interrupted, `kfifo_out` drains the short FIFO and -EFAULT is returned; otherwise count/4 ints leave the head oldest first and are returned processed with a freshly reset counter |
| RedsAdderV3.RedsAdder.EncryptInPlace | material/reds_adder__3.1/reds_adder_v3.c:423-434 | the first `n` slots are encrypted in place and the rest are untouched |
| RedsAdderV3.RedsAdder.DecryptInPlace | material/reds_adder__3.1/reds_adder_v3.c:435-446 | the first `n` slots are decrypted in place and the rest are untouched |
| RedsAdderV3.RedsAdder.StoreOperationAsWritten | material/reds_adder__3.1/reds_adder_v3.c:564-601 | during a read the call gives -EINVAL; a text starting "encrypt" or "decrypt" selects the mode; any other text gives -EINVAL and leaves the mutex locked, as the code does |
| RedsAdderV3.RedsAdder.StoreOperation | material/reds_adder__3.1/reds_adder_v3.c:564-601 | the same outcomes as the code, with the mutex released on every path |
| RedsAdderV3.RedsAdder.StoreThreshold | material/reds_adder__3.1/reds_adder_v3.c:653-685 | a parse error is returned as is, a value that is not positive gives -EINVAL, and both leave the threshold; a positive value is stored and written to the threshold register |
| RedsAdderV3.OperationWords | material/reds_adder__3.1/reds_adder_v3.c:578-592 | "decrypt" and "decrypt\n" match the decrypt prefix and not the encrypt prefix |
| RedsAdderV3.DecryptedVector | material/reds_adder__3.1/test_v3.c:150-174 | decrypting 11..17 with threshold 3 gives 10, 10, 10, 13, 13, 13, 16 |
| RedsAdderV3.DecryptTestVector | material/reds_adder__3.1/test_v3.c:150-174 | the device, put in decrypt mode and given 11..17, returns those seven values and 28 bytes |
| RedsAdderV3.EncryptDecryptRoundTrip | material/reds_adder__3.1/test_v3.c:30-42 | a vector sent through the device in encrypt mode and back through it in decrypt mode comes out unchanged |
| RedsAdderV3.Transform | material/reds_adder__3.1/reds_adder_v3.c:355-518 | one write followed by one read of the same size returns the vector processed by the current mode and leaves the FIFO empty |
| RedsAdderV3.OperationLockLeak | material/reds_adder__3.1/reds_adder_v3.c:588-591 | after an invalid operation the code leaves the lock held, so a later read blocks and a threshold store fails; with the lock released the read returns |
| Chronometre.DisplayTimeOf | material/lab_06/chronometre/chronometre.c:84-94 | millis < 1000, seconds < 60, and minutes·60000 + seconds·1000 + millis is the elapsed milliseconds |
| Chronometre.DisplayTimeUnique | material/lab_06/chronometre/chronometre.c:84-94 | any in-range split that adds up to the elapsed milliseconds is the one the conversion gives |
| Chronometre.CurrentChronoTime | material/lab_06/chronometre/chronometre.c:95-106 | 0:0:0 whenever the state is not RUN; otherwise the split of the elapsed time |
| Chronometre.Initial | material/lab_06/chronometre/chronometre.c:49-79 | the chronometer starts in RESET with no laps and a lap count that matches the list |
| Chronometre.Handled | material/lab_06/chronometre/chronometre.c:338-393 | the lap count keeps matching the list; a KEY0 bit always ends in RUN with the start tick set to now; nothing enters PAUSE; the lap display type is untouched |
| Chronometre.LapPressAppends | material/lab_06/chronometre/chronometre.c:356-363 | KEY1 appends a lap stamped now at the tail and counts it, unless the allocation fails, in which case nothing changes |
| Chronometre.DisplayToggleTwice | material/lab_06/chronometre/chronometre.c:364-374 | KEY2 changes the display state and two KEY2 presses restore it |
| Chronometre.ResetOnlyFromPause | material/lab_06/chronometre/chronometre.c:375-391 | KEY3 in PAUSE resets state, lap count, start tick and list; in any other state it changes nothing |
| Chronometre.Replay | material/lab_06/chronometre/chronometre.c:338-393 | no sequence of button events changes the lap display type |
| Chronometre.ReplayNeverPauses | material/lab_06/chronometre/chronometre.c:343-355 | from any state other than PAUSE, no sequence of events reaches PAUSE, and the lap count keeps matching the list |
| Chronometre.ResetUnreachable | material/lab_06/chronometre/chronometre.c:343-391 | after any sequence of events from the initial state, KEY3 changes nothing |
| Chronometre.NextPosition | material/lab_06/chronometre/chronometre.c:305-307 | `list_next_entry` on the circular list: the next lap, or the list head after the last lap |
| Chronometre.NextCursorAsWritten | material/lab_06/chronometre/chronometre.c:305-311 | as written, a NULL cursor stays NULL (the `list_first_entry` result is discarded), and a cursor on the list stays on it |
| Chronometre.CursorStaysNull | material/lab_06/chronometre/chronometre.c:284-311 | starting NULL, the cursor is still NULL after any number of passes of the lap branch, whatever the lap lists they see |
| Chronometre.WorkIterationAsWritten | material/lab_06/chronometre/chronometre.c:290-330 | one loop iteration ends the loop exactly when the state is not RUN; in RUN it spins without effect exactly while the 3-second check fails, and sets DISPLAY_TIME and spins exactly when that check passes with a NULL cursor and no lap; it shows a lap only with a non-NULL cursor, measured from `LapReferenceAsWritten` |
| Chronometre.AfterIteration | material/lab_06/chronometre/chronometre.c:304-307 | an iteration changes only the display state, and leaves it DISPLAY_TIME exactly when it was already or the pass found no lap |
| Chronometre.EmptyListPassThenToggle | material/lab_06/chronometre/chronometre.c:304-374 | in RUN with no lap and the check passed, the iteration sets DISPLAY_TIME, so the next KEY2 press selects DISPLAY_LAP whatever the display state was |
| Chronometre.NeverShowsAsWritten | material/lab_06/chronometre/chronometre.c:284-330 | as written no iteration ever shows a lap; in RUN with a lap recorded and the 3-second check passed, `list_prev_entry` dereferences the NULL cursor |
| Chronometre.NextCursor | material/lab_06/chronometre/chronometre.c:305-311 | the corrected cursor always lands on a lap of a non-empty list |
| Chronometre.CursorCycles | material/lab_06/chronometre/chronometre.c:284-324 | from NULL, the corrected cursor shows lap `k mod n` on pass `k + 1`: the laps in list order, over and over |
| Chronometre.CursorCyclesFrom | material/lab_06/chronometre/chronometre.c:305-311 | from lap `i`, `k` passes of the corrected cursor land on lap `(i + k) mod n` |
| Chronometre.LapReferenceAsWritten | material/lab_06/chronometre/chronometre.c:313-324 | for a cursor at position `pos` (a state the code as written never reaches, see `Chronometre.NeverShowsAsWritten`): the start tick in FROM_START mode or on the list head itself; otherwise the previous list entry, which for the first lap is the list head |
| Chronometre.FirstLapReadsListHead | material/lab_06/chronometre/chronometre.c:313-321 | with the cursor on the first lap, the code's SINCE_LAST reference reads the list head, which holds no tick; the corrected reference is the start tick |
| Chronometre.LapReference | material/lab_06/chronometre/chronometre.c:313-324 | the corrected reference agrees with the code exactly when the mode is FROM_START or the lap is not the first |
| Chronometre.SinceLastLapsTelescope | material/lab_06/chronometre/chronometre.c:313-324 | with ticks in order, the first `k` SINCE_LAST lap durations add up to the `k`-th lap's tick minus the start tick |
| Chronometre.Chronometre.constructor | material/lab_06/chronometre/chronometre.c:49-79 | the driver state is the initial chronometer |
| Chronometre.Chronometre.ThreadIrq | material/lab_06/chronometre/chronometre.c:338-393 | the new driver state is the old one after handling the button bits in order KEY0, KEY1, KEY2, KEY3 |
| Chronometre.Chronometre.LapDisplayTypeStore | material/lab_06/chronometre/chronometre.c:243-263 | a parse error is returned as is; a value other than 0 or 1 gives -EINVAL; both leave the state; 0 or 1 becomes the lap display type |
| ChronoTest.MsecsToTime | material/lab_06/chronometre/test/chrono_test.c:15-22 | secs < 60, cents < 100, and minutes·60000 + secs·1000 + cents·10 is at most the milliseconds and less than that value plus 10 |
| ChronoTest.AgreesWithDriver | material/lab_06/chronometre/test/chrono_test.c:15-22 | the program's split is the driver's split with the milliseconds cut to hundredths |
| ChronoTest.Decode | material/lab_06/chronometre/test/chrono_test.c:33-47 | a read of 0 bytes or fewer exits with 1; otherwise word 0 is the current time and words 1 to n−1 are the laps, with n = bytes read / 4 |
| SevenSeg.IntTo7Seg | material/lab_02/ex1.c:48-54 | digits 0 to 15 give a lit pattern; anything else gives the blank pattern |
| SevenSeg.FindDigit | material/lab_02/ex1.c:29-46 | the search over the table finds a digit whose pattern matches or proves that none from `from` on matches |
| SevenSeg.HexDigitsDistinct | material/lab_02/ex1.c:29-46 | the sixteen patterns are pairwise distinct |
| SevenSeg.SegRoundTrip | material/lab_02/ex1.c:29-54 | each digit 0 to 15 is recovered from its pattern, and the blank pattern is no digit |
| PushButtons.PollOnce | material/lab_02/ex1.c:59-70 | the remembered value becomes the new reading; a press is reported only when the reading changed, and then it is the re-read register |
| PushButtons.HeldButtonReportedOnce | material/lab_02/ex1.c:59-70 | a button that is held down is reported on the first poll and not on the next |
| PushButtons.ButtonPoller.constructor | material/lab_02/ex1.c:59-62 | the remembered register value starts at 0 |
| PushButtons.ButtonPoller.GetBtnPressed | material/lab_02/ex1.c:59-70 | the result and the new remembered value are exactly one poll step |
| NumberFilter.Digit | material/lab_05/show_number/show_number.c:65-68 | each extracted digit is below 10 |
| NumberFilter.SixDigits | material/lab_05/show_number/show_number.c:61-75 | the six digits weighted by powers of ten rebuild the number modulo 1000000 |
| NumberFilter.Filtered | material/lab_05/show_number/show_number.c:145-157 | the queued values are no more than the written ones, and each lies in 1 to 999999 |
| NumberFilter.FilteredMembers | material/lab_05/show_number/show_number.c:145-157 | a value is queued exactly when it was written and lies in 1 to 999999 |
| NumberFilter.FilteredAppend | material/lab_05/show_number/show_number.c:145-157 | filtering two writes in turn is filtering their concatenation |
| NumberFilter.FilteredKeepsNumbers | material/lab_05/show_number/show_number.c:152-156 | values already in 1 to 999999 are all queued, in order |
| ShowNumberV1.PushedAsWritten | material/lab_05/show_number/show_number.c:156 | as written, one kfifo_in queues the value and then stack bytes, up to four elements or the free space |
| ShowNumberV1.QueuedAsWritten | material/lab_05/show_number/show_number.c:145-157 | as written, the FIFO grows within its capacity and keeps its old contents as a prefix |
| ShowNumberV1.OneValueQueuesFour | material/lab_05/show_number/show_number.c:156 | as written, one valid value queues four elements; the corrected filter queues that value once |
| ShowNumberV1.ShiftedDigit | material/lab_05/show_number/show_number.c:65-68 | the digit loop takes the last digit, then drops it, which is the `i`-th decimal digit |
| ShowNumberV1.DisplayNumber | material/lab_05/show_number/show_number.c:61-75 | the six digits are the number's decimal digits, least significant first, and rebuild it modulo 1000000 |
| ShowNumberV1.WriteOneValue | material/lab_05/show_number/show_number.c:118-160 | writing the value 5 queues four elements as written and the one value 5 when corrected |
| ShowNumberV1.ShowNumber.constructor | material/lab_05/show_number/show_number.c:40-50 | the FIFO is empty, display not stopped, no zero signalled |
| ShowNumberV1.ShowNumber.OnWrite | material/lab_05/show_number/show_number.c:118-160 | a size that is not a multiple of 4 or over the free slots gives -EINVAL, a failed allocation -ENOMEM, a failed copy -EFAULT, and none of them changes anything; otherwise `count` is returned, the values in 1 to 999999 are queued in order, and each 0 clears the stop flag and is counted |
| ShowNumberV1.ShowNumber.Enqueue | material/lab_05/show_number/show_number.c:145-157 | the loop queues the filtered values, clears the stop flag if a 0 was written and counts the zeros |
| ShowNumberV1.ShowNumber.EnqueueOne | material/lab_05/show_number/show_number.c:147-156 | one value: a 0 clears the stop flag and is counted; a value in range is queued; others are dropped |
| ShowNumberV1.ShowNumber.OnWriteAsWritten | material/lab_05/show_number/show_number.c:118-160 | the same checks, with each valid value queued as the code's four-element kfifo_in |
| ShowNumberV1.ShowNumber.IrqHandler | material/lab_05/show_number/show_number.c:77-90 | a KEY0 bit sets the stop flag; the FIFO and zero count are untouched |
| ShowNumberV2.ByteWeight | material/lab_05/show_number-2/show_number.c:115-120 | each byte position of a register word has a positive weight |
| ShowNumberV2.LowerWordBytes | material/lab_05/show_number-2/show_number.c:115-117 | the low word holds the patterns of digits 0 to 3 in bytes 0 to 3 and fits in 32 bits |
| ShowNumberV2.HigherWordBytes | material/lab_05/show_number-2/show_number.c:118-120 | the high word holds the patterns of digits 4 and 5 in bytes 0 and 1, and its top 16 bits are 0 |
| ShowNumberV2.WordsRoundTrip | material/lab_05/show_number-2/show_number.c:110-120 | reading the two words back digit by digit gives the number their digits spell |
| ShowNumberV2.ReadSpelled | material/lab_05/show_number-2/show_number.c:110-120 | if each display byte shows digit `d_i`, the display reads the number spelled by the six digits |
| ShowNumberV2.ByteReadBack | material/lab_05/show_number-2/show_number.c:53-63 | a byte holding digit `d`'s pattern reads back as `d` |
| ShowNumberV2.DisplayRoundTrip | material/lab_05/show_number-2/show_number.c:103-123 | the two register words of any number read back as the number modulo 1000000 |
| ShowNumberV2.DisplayShowsNumber | material/lab_05/show_number-2/show_number.c:103-123 | the two register words of a number up to 999999 read back as that number |
| ShowNumberV2.DisplayNumber | material/lab_05/show_number-2/show_number.c:103-123 | the method's two words are the specified packed digit patterns |
| ShowNumberV2.OrShifted | material/lab_05/show_number-2/show_number.c:115-120 | the OR-and-shift loop packs the byte range into one word |
| ShowNumberV2.DigitPatterns | material/lab_05/show_number-2/show_number.c:110-113 | digit `k` of the array is the pattern of the number's `k`-th decimal digit |
| ShowNumberV2.DecimalString | material/lab_05/show_number-2/show_number.c:263-264 | `%d` of a non-negative number is a non-empty run of decimal digits |
| ShowNumberV2.DecimalRoundTrip | material/lab_05/show_number-2/show_number.c:263-264 | parsing a number's decimal text gives the number back |
| ShowNumberV2.DecimalLength | material/lab_05/show_number-2/show_number.c:263-264 | a number below 10^k takes at most `k` digits |
| ShowNumberV2.EntryFits | material/lab_05/show_number-2/show_number.c:263-264 | each entry of a queued value, with its separator, is at most 7 characters, so the 8-byte `scnprintf` never cuts it |
| ShowNumberV2.DigitRunOfEntry | material/lab_05/show_number-2/show_number.c:263-264 | the digit run of an entry stops at its separator |
| ShowNumberV2.FifoText | material/lab_05/show_number-2/show_number.c:246-274 | the text is empty exactly when the FIFO is |
| ShowNumberV2.FifoTextEndsWithNewline | material/lab_05/show_number-2/show_number.c:263-264 | the text of a non-empty FIFO ends with the newline written after its last value |
| ShowNumberV2.ParseDecimal | material/lab_05/show_number-2/show_number.c:263-264 | a string of `k` characters stands for a number below 10^k |
| ShowNumberV2.FifoTextRoundTrip | material/lab_05/show_number-2/show_number.c:246-274 | the `fifo` attribute text parses back to the queued values, oldest first |
| ShowNumberV2.ShowNumber.constructor | material/lab_05/show_number-2/show_number.c:41-52 | the FIFO is empty, the display stopped, no zero signalled, and the display time 1000 |
| ShowNumberV2.ShowNumber.OnWrite | material/lab_05/show_number-2/show_number.c:183-228 | a size that is not a multiple of 4 or over the free space gives -EINVAL, then -ENOMEM or -EFAULT on failure, all changing nothing; otherwise `count` is returned, values in 1 to 999999 are queued in order, and a 0 written while stopped restarts the display and signals once |
| ShowNumberV2.ShowNumber.Enqueue | material/lab_05/show_number-2/show_number.c:211-225 | the loop queues the filtered values, and a 0 written while stopped restarts the display and signals once |
| ShowNumberV2.ShowNumber.EnqueueOne | material/lab_05/show_number-2/show_number.c:214-224 | a 0 while stopped restarts the display and signals; a value in range is queued; others are dropped |
| ShowNumberV2.ShowNumber.IrqHandler | material/lab_05/show_number-2/show_number.c:125-138 | a KEY0 bit stops the display; nothing else changes |
| ShowNumberV2.ShowNumber.FifoShow | material/lab_05/show_number-2/show_number.c:246-274 | a failed allocation on a non-empty FIFO gives -ENOMEM; otherwise the text lists the queued values oldest first, separated by ';' and ended by a newline, its length is returned, and it parses back to the FIFO |
| ShowNumberV2.ShowNumber.DisplayTimeStore | material/lab_05/show_number-2/show_number.c:283-296 | a parse failure gives -EINVAL and keeps the delay; otherwise the parsed integer, as a 32-bit unsigned value, becomes the delay |
| LedStep.Step | material/lab_05/led_controller/led_controller.c:189-219 | every work step leaves a value below 1024 |
| LedStep.StepIncrements | material/lab_05/led_controller/led_controller.c:197-214 | INC adds 1, and 1023 goes to 0 |
| LedStep.StepDecrements | material/lab_05/led_controller/led_controller.c:200-214 | DEC subtracts 1, and 0 goes to 1023 |
| LedStep.StepRotatesLeft | material/lab_05/led_controller/led_controller.c:203-214 | ROT_LEFT is the 10-bit left rotation |
| LedStep.StepRotatesRight | material/lab_05/led_controller/led_controller.c:207-214 | ROT_RIGHT is the 10-bit right rotation |
| LedStep.RotationsInverse | material/lab_05/led_controller/led_controller.c:203-210 | the two rotations undo each other on 10-bit values |
| LedStep.CountingInverse | material/lab_05/led_controller/led_controller.c:197-202 | INC and DEC undo each other on 10-bit values |
| LedStep.StepKeeps | material/lab_05/led_controller/led_controller.c:195-214 | NOTHING and unknown modes leave a 10-bit value unchanged |
| LedControllerV1.LedController.constructor | material/lab_05/led_controller/led_controller.c:242-263 | value 0, mode INC, LEDs off |
| LedControllerV1.LedController.WorkHandler | material/lab_05/led_controller/led_controller.c:189-219 | the value becomes one step of the current mode and is shown on the LEDs |
| LedControllerV1.LedController.ModStore | material/lab_05/led_controller/led_controller.c:116-135 | a parse error is returned as is, a mode above 4 gives -EINVAL, and both keep the mode; otherwise the mode is stored |
| LedControllerV1.LedController.ValueStore | material/lab_05/led_controller/led_controller.c:162-182 | a parse error is returned as is, a value of 1024 or more gives -EINVAL, and both keep the value; otherwise the value is stored |
| LedControllerV1.CountUpAndDown | material/lab_05/led_controller/led_controller.c:189-219 | two INC steps from 0 give 2, two DEC steps give 0, one more gives 1023 |
| LedControllerV4.LedController.constructor | material/lab_05/led_controller_4/led_controller.c:289-315 | value 0, mode INC, LEDs off |
| LedControllerV4.LedController.WorkHandler | material/lab_05/led_controller_4/led_controller.c:203-238 | the value becomes one step of the current mode and is shown on the LEDs |
| LedControllerV4.LedController.IrqHandler | material/lab_05/led_controller_4/led_controller.c:245-262 | KEY0 loads the ten switch bits into the value; without KEY0 the value is kept; the edge capture is always re-armed |
| LedControllerV4.LedController.ModStore | material/lab_05/led_controller_4/led_controller.c:122-141 | a parse error is returned as is, a mode above 4 gives -EINVAL, and both keep the mode; otherwise the mode is stored |
| LedControllerV4.LedController.ValueStore | material/lab_05/led_controller_4/led_controller.c:172-196 | a parse error is returned as is, a value of 1024 or more gives -EINVAL, and both keep the value; otherwise the value is stored |
| LedControllerV4.LoadSwitchesThenStep | material/lab_05/led_controller_4/led_controller.c:245-262 | all switches up load 0x3FF, an INC step wraps it to 0, and an interrupt without KEY0 keeps 0 |
| ScrollingText.CharTo7Seg | material/lab_01/ex4.c:64-71 | anything that is not a letter, in either case, is blank |
| ScrollingText.NextIndex | material/lab_01/ex4.c:165-170 | the window moves by at most one letter, and only KEY0 or KEY1 moves it |
| ScrollingText.LedsFor | material/lab_01/ex4.c:172-183 | the LEDs are off everywhere except at the two ends of the phrase |
| ScrollingText.CaseInsensitive | material/lab_01/ex4.c:64-71 | an upper-case letter has the same pattern as its lower-case form |
| ScrollingText.LitExactlyForSupportedLetters | material/lab_01/ex4.c:30-71 | a character lights segments exactly when it is a letter other than k, m, w, x and z |
| ScrollingText.PatternsIdentifyLetters | material/lab_01/ex4.c:30-58 | two supported letters with the same pattern are the same letter, except u and v, which share one |
| ScrollingText.Slot | material/lab_01/ex4.c:94-104 | positions 0 and 1 land in the lower register and 2 to 5 in the upper one, each at a valid byte |
| ScrollingText.SlotsDistinct | material/lab_01/ex4.c:94-104 | the position-to-byte mapping is injective on 0..5 |
| ScrollingText.LedsMarkEnds | material/lab_01/ex4.c:172-183 | the LEDs show 0xFFE0 (LEDs 5 to 9 lit) at index 0, 0x1F at the last index, and 0 elsewhere |
| ScrollingText.NextIndexBounded | material/lab_01/ex4.c:165-170 | the scroll index stays within 0..10, moves by at most one, and only moves on a press |
| ScrollingText.KeyZeroTakesPriority | material/lab_01/ex4.c:165-170 | with KEY0 and KEY1 both pressed, KEY0 scrolls left, except at index 0, where KEY0 cannot move and KEY1 scrolls right |
| ScrollingText.ScrollingInverse | material/lab_01/ex4.c:165-170 | KEY1 then KEY0, or KEY0 then KEY1, returns to the same index when neither is clamped |
| ScrollingText.Scrolled | material/lab_01/ex4.c:162-193 | any sequence of readings keeps the index within 0..10 |
| ScrollingText.SevenSegDisplay.Shown | material/lab_01/ex4.c:94-104 | the display is read as six digit patterns |
| ScrollingText.SevenSegDisplay.constructor | material/lab_01/ex4.c:153-160 | all six digits start blank |
| ScrollingText.SevenSegDisplay.WriteChar | material/lab_01/ex4.c:94-104 | the digit at `index` shows the character's pattern and the others are kept |
| ScrollingText.SevenSegDisplay.WriteWord | material/lab_01/ex4.c:107-115 | digit `i` shows character `i` for `i < len` and the others are kept |
| ScrollingText.SevenSegDisplay.Clear | material/lab_01/ex4.c:118-123 | all six digits become blank |
| ScrollingText.Scroller.constructor | material/lab_01/ex4.c:153-160 | index 0, LEDs off, no button remembered |
| ScrollingText.Scroller.Step | material/lab_01/ex4.c:162-193 | one loop pass polls the buttons, moves the index by `NextIndex` and sets the LEDs for the new index |
| ScrollingText.Scroller.Run | material/lab_01/ex4.c:162-193 | the loop over a sequence of readings ends where `Scrolled` says |
| ScrollingText.Scroller.Redraw | material/lab_01/ex4.c:186-192 | afterwards the six digits show the six letters of the phrase from the current index on (the invariant `Valid` says so) |
| ScrollingText.EnvenuPatterns | material/lab_01/ex4.c:30-71 | the letters of "envenu" have the patterns 0x79, 0x54 and 0x3e |
| ScrollingText.ScrollTwice | material/lab_01/ex4.c:162-193 | KEY1 pressed, held, released and pressed again scrolls to index 2 (the held button counts once), shows "envenu" and turns the LEDs off |
| LedSweep.WithLedSetsOnlyThatBit | lab_01/ex3.c:16-19 | turning an LED on lights it and leaves every other LED as it was |
| LedSweep.WithoutLedClearsOnlyThatBit | lab_01/ex3.c:20-23 | turning an LED off darkens it and leaves every other LED as it was |
| LedSweep.LedLightsOnlyItself | lab_01/ex3.c:16-23 | a register with one LED lit shows that LED and no other |
| LedSweep.SweepOrder | lab_01/ex3.c:43-54 | second `k` of a round lights exactly one LED: LED `k` on the way up, LED `19 - k` on the way down |
| LedSweep.SweptLed | lab_01/ex3.c:43-54 | the LED lit at any second of a round is among LEDs 0 to 9 |
| LedSweep.LedRegister.constructor | lab_01/ex3.c:41 | all LEDs start off |
| LedSweep.LedRegister.TurnOnLed | lab_01/ex3.c:16-19 | the register gains bit `led` |
| LedSweep.LedRegister.TurnOffLed | lab_01/ex3.c:20-23 | the register loses bit `led` |
| LedSweep.LedRegister.Sweep | lab_01/ex3.c:43-54 | one round shows LEDs 0 up to 9 and back down, one at a time, and ends with all off |
| HexRegisters.Showing | material/lab_02/ex1.c:72-81 | digit 0 shows the value's pattern (readable back exactly for 0..15) and the other three digits are blank |
| HexRegisters.HexDisplay.constructor | material/lab_02/ex1.c:114-118 | the four digits start blank |
| HexRegisters.HexDisplay.Clear | material/lab_02/ex1.c:78-81 | all four digits become blank |
| HexRegisters.HexDisplay.WriteValue | material/lab_02/ex1.c:72-75 | digit 0 takes the value's pattern and the other digits are kept |
| HexRegisters.HexDisplay.Show | material/lab_02/ex1.c:129-133 | the display reads as `Showing(value)` |
| HexCounterEx1.NextValueAsWritten | material/lab_02/ex1.c:123-127 | as written, no press keeps the value and KEY0 gives a value in 0..15 |
| HexCounterEx1.NextValue | material/lab_02/ex1.c:123-127 | corrected: no press keeps the value, and a value in 0..15 stays in 0..15 |
| HexCounterEx1.DecrementFromZeroLeavesRange | material/lab_02/ex1.c:125-126 | as written, KEY1 at 0 stores 255, which displays blank; from 255, KEY1 gives 14 and KEY0 gives 0 |
| HexCounterEx1.AsWrittenValues | material/lab_02/ex1.c:123-127 | as written, the value stays in 0..15 or is 255; KEY1 alone counts down from 1..15 |
| HexCounterEx1.NextValueCounts | material/lab_02/ex1.c:123-127 | corrected: KEY0 counts up with 15 going to 0; KEY1 alone counts down with 0 going to 15; no press keeps the value; the value stays in 0..15 |
| HexCounterEx1.CountingInverse | material/lab_02/ex1.c:123-127 | corrected: an increment and a decrement undo each other |
| HexCounterEx1.Counter.constructor | material/lab_02/ex1.c:114-118 | the value starts at 0 and no button is remembered |
| HexCounterEx1.Counter.Step | material/lab_02/ex1.c:120-134 | one loop pass polls, updates the value by the corrected rule, and leaves the display alone when nothing was pressed |
| HexCounterEx1.Counter.StepAsWritten | material/lab_02/ex1.c:120-134 | one loop pass as written |
| HexCounterEx1.Counter.Count | material/lab_02/ex1.c:123-127 | the value is updated by the corrected rule |
| HexCounterEx1.Counter.CountAsWritten | material/lab_02/ex1.c:123-127 | the value is updated as the code does |
| HexCounterEx1.DecrementAtStart | material/lab_02/ex1.c:120-134 | KEY1 at start: as written the value is 255 and blank; corrected it is 15, shown as F |
| HexCounterEx3.NextValue | material/lab_02/ex3.c:123-130 | no press keeps the value; `HexCounterEx3.NextValueWraps` gives the wrap-around in both directions |
| HexCounterEx3.NextValueWraps | material/lab_02/ex3.c:123-130 | KEY0 counts up with 15 going to 0; KEY1 alone counts down with 0 going to 15; no press keeps the value; the value stays in 0..15 |
| HexCounterEx3.CountingInverse | material/lab_02/ex3.c:123-130 | an increment and a decrement undo each other |
| HexCounterEx3.ValueAlwaysInRange | material/lab_02/ex3.c:118-130 | from 0, every sequence of presses keeps the value in 0..15 |
| HexCounterEx3.Counter.constructor | material/lab_02/ex3.c:114-118 | the value starts at 0 and no button is remembered |
| HexCounterEx3.Counter.Step | material/lab_02/ex3.c:120-137 | one loop pass polls, updates the value and leaves the display alone when nothing was pressed |
| HexCounterEx3.Counter.Count | material/lab_02/ex3.c:123-130 | the value is updated and stays in 0..15 |
| HexCounterEx3.DownThenUp | material/lab_02/ex3.c:120-137 | KEY1 from 0 shows F (15); KEY0 then shows 0 |
| CapitalQuiz.CorrectAnswer | material/lab_02/ex4_poll.c:40-74 | each question's right answer is one of its four choices |
| CapitalQuiz.ExactlyOneCorrect | material/lab_02/ex4_poll.c:40-74 | each question has exactly one correct choice |
| CapitalQuiz.RandomQuestion | material/lab_02/ex4_poll.c:76-79 | the drawn question is one of the five |
| CapitalQuiz.ResponseOf | material/lab_02/ex4_poll.c:235-249 | the response is -1 or the index of one of the four keys |
| CapitalQuiz.NextQuiz | material/lab_02/ex4_poll.c:203-268 | an exited program stays as it is; a pass that leaves the program playing started playing and keeps the LEDs; the question stays one of the five |
| CapitalQuiz.ResponseIsLowestKey | material/lab_02/ex4_poll.c:235-249 | the response is -1 exactly when no key is set, and otherwise the lowest key that is set |
| CapitalQuiz.LowNibble | material/lab_02/ex4_poll.c:235-249 | the four key tests read the four low bits of the edge register |
| CapitalQuiz.NextQuizConsistent | material/lab_02/ex4_poll.c:203-268 | each loop pass keeps the score in range, the question valid and the display showing the score |
| CapitalQuiz.KeyZeroDrawsQuestion | material/lab_02/ex4_poll.c:236-241 | KEY0 with no active question draws a question and scores nothing |
| CapitalQuiz.AnswerWithoutQuestionIgnored | material/lab_02/ex4_poll.c:251 | without an active question, any other key changes nothing |
| CapitalQuiz.AnswerScores | material/lab_02/ex4_poll.c:251-267 | a right answer adds 1 to the score (ending the game after 15), a wrong one resets it to 0; either way the question is cleared and the score shown |
| CapitalQuiz.Played | material/lab_02/ex4_poll.c:203-268 | any number of loop passes keeps the state consistent |
| CapitalQuiz.ExitIsFinal | material/lab_02/ex4_poll.c:211-273 | once the program has exited, later rounds change nothing |
| CapitalQuiz.ExitAfter | material/lab_02/ex4_poll.c:211-273 | rounds after the exit do not change the outcome |
| CapitalQuiz.QuizGame.constructor | material/lab_02/ex4_poll.c:188-196 | score 0, no question, display 0, playing |
| CapitalQuiz.QuizGame.Exit | material/lab_02/ex4_poll.c:269-273 | cleanup turns off the LEDs and the display and records the exit code |
| CapitalQuiz.QuizGame.Play | material/lab_02/ex4_poll.c:203-268 | the loop over rounds reaches `Played` |
| CapitalQuiz.QuizGame.Round | material/lab_02/ex4_poll.c:203-268 | one loop pass is `NextQuiz` |
| CapitalQuiz.RightThenWrong | material/lab_02/ex4_poll.c:236-267 | a right answer shows 1, then a wrong one shows 0 |

## Left out

- Module registration, `probe`/`remove`, `platform_driver`, the `miscdevice` and `cdev` plumbing, and the sysfs `*_show` functions that only print a field are not modelled. The exception is `show_number` v2's `fifo_show`, which is modelled.
- Register I/O is modelled as fields and parameters: `ioread*`/`iowrite*`, `mmap` of `/dev/mem` and UIO, and the interrupt mask and edge-capture writes.
- Kernel threads, timers, work queues and all sleeping are left out, because the model has no time or scheduling. This covers `seven_seg_task`, `udelay`, `msleep`, `sleep` and `usleep`.
- The v3 adder's wait queue is modelled only as the `Blocked` outcome of `RedsAdderV3.RedsAdder.Read`.
- Mutexes are left out, apart from the one that `store_operation` leaks.
- Spinlocks and atomics are left out. Every operation is modelled as running alone.
- `printf`/`pr_info`/`DBG` output is left out.
- The SIGINT handler of the quiz is modelled as the Io value `Stopped`.
- `ex3.c`'s cleanup after its endless loop is left out, because it cannot be reached.
- Chronometer parts left out:
  - the display loop of `work_handler` (chronometre.c:275-331) is modelled one iteration at a time, by `Chronometre.WorkIterationAsWritten`, with its one write to the driver state (DISPLAY_TIME when no lap is recorded) in `Chronometre.AfterIteration`; the reading of the time, its display, the `last_lap_display` write of line 326 (which nothing reads) and the sleep are not modelled;
  - the loop's time check compares with `last_lap_display_jiffies`, which stays 0 (line 326 writes another field), and `msecs_to_jiffies(DISPLAY_LAP_TIME_MS)` is a parameter, because it depends on the tick rate;
  - the handler is scheduled once, at probe (chronometre.c:462), with an `UPDATE_INTERVAL` that the file does not define (it defines `UPDATE_INTERVAL_MS`); the model does not capture when it runs;
  - after the last lap, `Chronometre.NextCursor` goes back to the first lap. That is a reading of the intent: the code's `list_next_entry` would go to the list head, which `Chronometre.NextPosition` models;
  - the stub `display_time_in_7_seg`;
  - the IRQ top half that snapshots the buttons.
- Chronometer modelling choices:
  - the `kzalloc(sizeof(lap))` under-allocation is modelled only as a possible allocation failure;
  - `list_del` while iterating the list in the KEY3 branch is modelled as emptying the list;
  - `jiffies` deltas are taken to be milliseconds.
- `show_number` v1's `kfifo_out` in the display thread is left out, along with the rest of that thread.
- Parrot: a write past `size` leaves a gap between `size` and `ppos`. `Parrot.ParrotBuffer.Write` states that, outside the written range, every byte below the old capacity keeps its value, gap bytes included. A grown buffer's new bytes are 0 in the model. The source's krealloc leaves them uninitialised, and a later read that reaches past such a gap returns whatever they hold; the model does not capture those values.
- RedsAdderV3.RedsAdder.Write: the KFIFO of the source holds bytes, the model's holds ints. After a faulting copy the model keeps only the `copied / 4` ints copied whole. It drops the `copied % 4` bytes of a half-copied int, which the source keeps in the KFIFO and would hand to a later read as the start of the next int.
- `Parrot.ParrotBuffer.Write` uses the corrected growth and the corrected size. The code as written is captured by `Parrot.GrowAsWritten` and `Parrot.SizeAfterWriteAsWritten`; see Findings.
- Flifo.FlifoDevice.Read: in LIFO mode with `next_in` at 0 it reads the corrected slot 63, not the code's `values[next_in - 1]` (see Findings, and `Flifo.FullLifoReadIndex` for the code as written).
- CTypes.CRem: its contract states only the sign and bound of C's `%`, not the exact equation with the quotient.

## Findings

| source | as written | input that shows it | evidently intended | confidence | as-written member | corrected member |
|---|---|---|---|---|---|---|
| material/lab_03/flifo_module/flifo.c:77 | a LIFO read takes `values[next_in - 1]`, and `next_in` wraps to 0 once the ring holds 64 bytes | LIFO mode: write 64 bytes, then read 1; `next_in - 1` is `SIZE_MAX` | the slot before `next_in` modulo 64, here 63 | not executed | Flifo.FullLifoReadIndex | Flifo.FlifoDevice.PopNewest |
| material/lab_04/parrot_module/parrot.c:82-97 | the 1024-byte limit is checked only before doubling, so the loop can double past it | a 2000-byte write into the 8-byte buffer grows it to 2048 | refuse any growth beyond 1024 with -ENOMEM | not executed | Parrot.GrowAsWrittenPassesMax | Parrot.GrowSpec |
| material/lab_04/parrot_module/parrot.c:105 | `size += count` even when the write overwrites existing data | write 5 bytes at position 0 twice: size 10 with capacity 8 | size becomes the larger of size and `ppos + count` | not executed | Parrot.SizeAsWrittenPassesCapacity | Parrot.SizeAfterWrite |
| material/lab_06/chronometre/chronometre.c:305-315 | with `current_lap` NULL the lap branch calls `list_first_entry` and discards its result, so the cursor stays NULL and `list_prev_entry` at line 315 dereferences it | RUN with one lap recorded, once `jiffies_64` is past the 3-second window | take the first lap, then walk the list one lap per pass | not executed | Chronometre.NeverShowsAsWritten | Chronometre.CursorCycles |
| material/lab_06/chronometre/chronometre.c:313-321 | once a cursor is on the first lap, the first-lap test is asked of the current lap rather than its predecessor, so the first lap in SINCE_LAST mode takes the list head as its previous lap | SINCE_LAST mode with one lap recorded, the cursor on it | the start tick as reference for the first lap | not executed | Chronometre.FirstLapReadsListHead | Chronometre.SinceLastLapsTelescope |
| material/lab_05/show_number/show_number.c:156 | `kfifo_in` is given `sizeof(value)` elements, so each value queues four FIFO entries | write the single value 5 | one entry per value | not executed | ShowNumberV1.OneValueQueuesFour | ShowNumberV1.ShowNumber.OnWrite |
| material/lab_02/ex1.c:125-126 | decrementing from 0 stores `-1 % 16 = -1` in a `uint8_t`, i.e. 255, which displays blank | press KEY1 at start | wrap to 15, as exercise 3 does | not executed | HexCounterEx1.DecrementAtStart | HexCounterEx1.NextValueCounts |
| material/reds_adder__3.1/reds_adder_v3.c:588-591 | an unknown operation returns -EINVAL without releasing the read mutex | write "foo" to `operation`, then read | release the mutex on every path | not executed | RedsAdderV3.OperationLockLeak | RedsAdderV3.RedsAdder.StoreOperation |
