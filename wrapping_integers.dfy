/**
 * 32-bit wrapping sequence numbers (section 3.4 of RFC 9293): an absolute 64-bit
 * stream offset `n` travels on the wire as `(n + zero_point) mod 2^32`, and is
 * recovered by picking the 64-bit value congruent to the wire value that lies
 * nearest a checkpoint.
 */
module WrappingIntegers {
  import opened Basics

  /** The C++ stack's BASE and MASK_HIGH_32, as integers. */
  const BASE: int := 0x1_0000_0000
  const HALF_BASE: int := 0x8000_0000
  const MASK_HIGH_32: int := 0xFFFF_FFFF_0000_0000

  datatype Wrap32 = Wrap32(raw: u32)

  /** Distance between two integers. */
  function Dist(a: int, b: int): nat
  {
    if a >= b then a - b else b - a
  }

  /** `static_cast<uint32_t>(n) + zero_point.raw_value_`, wrapping in 32 bits. */
  function Wrap(n: u64, zeroPoint: Wrap32): (w: Wrap32)
    ensures (w.raw - zeroPoint.raw) % BASE == n % BASE
  {
    Wrap32((n % BASE + zeroPoint.raw) % BASE)
  }

  /** `raw_value_ - zero_point.raw_value_` computed in 32 bits: the low 32 bits of the offset. */
  function Offset(w: Wrap32, zeroPoint: Wrap32): (d: u32)
    ensures (d + zeroPoint.raw) % BASE == w.raw
  {
    (w.raw - zeroPoint.raw) % BASE
  }

  /**
   * The candidate `(checkpoint & MASK_HIGH_32) | n_low32` is moved one period down
   * or up only when the other side is strictly more than half a period closer and
   * the move stays inside the 64-bit range.
   */
  function Unwrap(w: Wrap32, zeroPoint: Wrap32, checkpoint: u64): (r: u64)
    ensures r % BASE == Offset(w, zeroPoint)
  {
    var nLow := Offset(w, zeroPoint);
    var cLow := checkpoint % BASE;
    var res := checkpoint - cLow + nLow;
    SamePeriod(checkpoint, nLow);
    if res >= BASE && nLow > cLow && nLow - cLow > HALF_BASE then res - BASE
    else if res < MASK_HIGH_32 && cLow > nLow && cLow - nLow > HALF_BASE then res + BASE
    else res
  }

  /** `(x & MASK_HIGH_32) | d` for a 32-bit `d`: same period as `x`, low bits `d`. */
  lemma SamePeriod(x: u64, d: u32)
    ensures var res := x - x % BASE + d;
      && 0 <= res < TWO_TO_64
      && res % BASE == d && (res - BASE) % BASE == d && (res + BASE) % BASE == d
      && (res >= BASE <==> x >= BASE)
      && (res < MASK_HIGH_32 <==> x < MASK_HIGH_32)
  {
    var q := x / BASE;
    assert x - x % BASE == q * 0x1_0000_0000;
    assert 0 <= q < 0x1_0000_0000;
  }

  /** Unwrapping then wrapping gives back the wire value, whatever the checkpoint. */
  lemma WrapUnwrap(w: Wrap32, zeroPoint: Wrap32, checkpoint: u64)
    ensures Wrap(Unwrap(w, zeroPoint, checkpoint), zeroPoint) == w
  {
    var r := Unwrap(w, zeroPoint, checkpoint);
    assert (Wrap(r, zeroPoint).raw - zeroPoint.raw) % BASE == Offset(w, zeroPoint);
  }

  /** Splits a 64-bit value into its period number and its low 32 bits. */
  lemma Split(x: u64)
    ensures x == (x / BASE) * 0x1_0000_0000 + x % BASE
    ensures 0 <= x / BASE < 0x1_0000_0000
  {
  }

  /**
   * No 64-bit value congruent to the offset is strictly nearer the checkpoint
   * than the result of Unwrap.
   */
  lemma {:induction false} UnwrapIsNearest(w: Wrap32, zeroPoint: Wrap32, checkpoint: u64, v: u64)
    requires v % BASE == Offset(w, zeroPoint)
    ensures Dist(Unwrap(w, zeroPoint, checkpoint), checkpoint) <= Dist(v, checkpoint)
  {
    var nLow := Offset(w, zeroPoint);
    var cLow := checkpoint % BASE;
    var hi := checkpoint / BASE;
    var qv := v / BASE;
    Split(checkpoint);
    Split(v);
    var j := qv - hi;
    assert v - checkpoint == j * 0x1_0000_0000 + (nLow - cLow);
    var r := Unwrap(w, zeroPoint, checkpoint);
    if j >= 2 {
      assert v - checkpoint >= 0x1_0000_0000;
    } else if j <= -2 {
      assert checkpoint - v >= 0x1_0000_0000;
    }
  }

  /** Two congruent 64-bit values less than a period apart are equal. */
  lemma CongruentClose(a: u64, b: u64)
    requires a % BASE == b % BASE
    requires Dist(a, b) < BASE
    ensures a == b
  {
    Split(a);
    Split(b);
  }

  /**
   * An absolute sequence number within half a period of the checkpoint survives
   * the trip through the wire: disambiguation across the 2^32 boundary.
   */
  lemma {:induction false} UnwrapRecovers(n: u64, zeroPoint: Wrap32, checkpoint: u64)
    requires Dist(n, checkpoint) < HALF_BASE
    ensures Unwrap(Wrap(n, zeroPoint), zeroPoint, checkpoint) == n
  {
    var w := Wrap(n, zeroPoint);
    var r := Unwrap(w, zeroPoint, checkpoint);
    assert Offset(w, zeroPoint) == n % BASE;
    UnwrapIsNearest(w, zeroPoint, checkpoint, n);
    CongruentClose(r, n);
  }

  /** Round trip at the checkpoint itself. */
  lemma UnwrapWrapAtCheckpoint(n: u64, zeroPoint: Wrap32)
    ensures Unwrap(Wrap(n, zeroPoint), zeroPoint, n) == n
  {
    UnwrapRecovers(n, zeroPoint, n);
  }

  /** With checkpoint 0 the result is the 32-bit offset itself. */
  lemma UnwrapAtZero(w: Wrap32, zeroPoint: Wrap32)
    ensures Unwrap(w, zeroPoint, 0) == Offset(w, zeroPoint) < BASE
  {
  }

  /**
   * At a distance of exactly half a period neither strict comparison fires, so
   * the result stays in the checkpoint's own period.
   */
  lemma UnwrapTie(w: Wrap32, zeroPoint: Wrap32, checkpoint: u64)
    requires Dist(Offset(w, zeroPoint), checkpoint % BASE) == HALF_BASE
    ensures Unwrap(w, zeroPoint, checkpoint) / BASE == checkpoint / BASE
    ensures Dist(Unwrap(w, zeroPoint, checkpoint), checkpoint) == HALF_BASE
  {
    Split(checkpoint);
  }
}
