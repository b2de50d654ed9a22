/**
 Fixed-width arithmetic of the controller.  Counters such as millis() are 32-bit and wrap;
 payloads are cast to int16_t.  Everything else in the model is unbounded.
 */
module Words {

  datatype Option<+T> = None | Some(value: T)

  const TWO_32: int := 0x1_0000_0000
  const TWO_31: int := 0x8000_0000

  type byte = x: int | 0 <= x < 256
  type uint32 = x: int | 0 <= x < 0x1_0000_0000

  /** The low 32 bits of x, as an unsigned number. */
  function Wrap32(x: int): uint32 {
    x % 0x1_0000_0000
  }

  /** `(unsigned long)(now - earlier)`: the elapsed ticks of a wrapping counter. */
  function Elapsed(now: uint32, earlier: uint32): uint32 {
    Wrap32(now - earlier)
  }

  /** `(long)(now - target) >= 0`: the wrap-tolerant "has the target been reached" test. */
  predicate Reached(now: uint32, target: uint32) {
    Elapsed(now, target) < TWO_31
  }

  /** The value kept by a cast to int16_t. */
  function ToInt16(x: int): int {
    var low := x % 0x1_0000;
    if low < 0x8000 then low else low - 0x1_0000
  }

  lemma WrapOfSmall(x: int)
    requires 0 <= x < TWO_32
    ensures Wrap32(x) == x
  {
  }

  lemma WrapOfSum(x: int, n: int)
    ensures Wrap32(Wrap32(x) + n) == Wrap32(x + n)
  {
    var q := x / 0x1_0000_0000;
    assert x + n == q * 0x1_0000_0000 + (Wrap32(x) + n);
  }

  /** The elapsed ticks are the true difference, as far as 32 bits show it. */
  lemma WrappedDifference(now: int, earlier: int)
    ensures Elapsed(Wrap32(now), Wrap32(earlier)) == (now - earlier) % 0x1_0000_0000
  {
    var q := now / 0x1_0000_0000 - earlier / 0x1_0000_0000;
    assert now - earlier == q * 0x1_0000_0000 + (Wrap32(now) - Wrap32(earlier));
  }

  /** A wrapped difference never exceeds the true one, so a measured gap is a real gap. */
  lemma ElapsedIsAtMostTrueTime(now: nat, earlier: nat)
    requires earlier <= now
    ensures Elapsed(Wrap32(now), Wrap32(earlier)) == (now - earlier) % TWO_32
    ensures Elapsed(Wrap32(now), Wrap32(earlier)) <= now - earlier
  {
    WrappedDifference(now, earlier);
  }
}
