/**
 * The arithmetic of the REDS-adder device, shared by both driver versions:
 * each value is offset by the reading of the hardware counter register, the
 * counter counting 1, 2, ..., threshold, 1, 2, ... after a reset.
 */
module AdderArith {
  import opened CTypes

  const DEFAULT_THR: int := 3

  /** The values the counter register gives to the successive reads of one call. */
  type Counter = nat -> I32

  /** The counter of a device with threshold `thr`, read from a reset. */
  function ThresholdCounter(thr: int): (c: Counter)
    requires 0 < thr < 0x8000_0000
    ensures forall i: nat :: 1 <= c(i) <= thr
  {
    (i: nat) => i % thr + 1
  }

  /** `buf[i] += ra_read(VALUE)` over a vector, with the kernel's wrapping `int` addition. */
  function Encrypted(v: seq<I32>, counter: Counter): (r: seq<I32>)
    ensures |r| == |v|
  {
    seq<I32>(|v|, i requires 0 <= i < |v| => ToI32(v[i] + counter(i)))
  }

  /** `buf[i] -= ra_read(VALUE)` over a vector. */
  function Decrypted(v: seq<I32>, counter: Counter): (r: seq<I32>)
    ensures |r| == |v|
  {
    seq<I32>(|v|, i requires 0 <= i < |v| => ToI32(v[i] - counter(i)))
  }

  lemma WrapAddSub(a: I32, b: I32)
    ensures ToI32(ToI32(a + b) - b) == a
    ensures ToI32(ToI32(a - b) + b) == a
  {
    var s := ToI32(a + b);
    assert (s - b - a) % 0x1_0000_0000 == 0;
    var d := ToI32(a - b);
    assert (d + b - a) % 0x1_0000_0000 == 0;
  }

  /** Decryption with the same counter readings undoes encryption, and conversely. */
  lemma DecryptEncrypt(v: seq<I32>, counter: Counter)
    ensures Decrypted(Encrypted(v, counter), counter) == v
    ensures Encrypted(Decrypted(v, counter), counter) == v
  {
    forall i | 0 <= i < |v|
      ensures Decrypted(Encrypted(v, counter), counter)[i] == v[i]
      ensures Encrypted(Decrypted(v, counter), counter)[i] == v[i]
    {
      WrapAddSub(v[i], counter(i));
    }
  }

  /** Processing only the first `k` values gives the first `k` values of the whole result. */
  lemma EncryptedPrefix(v: seq<I32>, counter: Counter, k: nat)
    requires k <= |v|
    ensures Encrypted(v[..k], counter) == Encrypted(v, counter)[..k]
    ensures Decrypted(v[..k], counter) == Decrypted(v, counter)[..k]
  {
  }

  /** Small values never wrap: encryption with a threshold counter adds 1..threshold to each value. */
  lemma EncryptedSmall(v: seq<I32>, thr: int, i: nat)
    requires 0 < thr < 0x8000_0000 && i < |v| && 0 <= v[i] < 0x4000_0000 && thr < 0x4000_0000
    ensures Encrypted(v, ThresholdCounter(thr))[i] == v[i] + i % thr + 1
  {
  }
}
