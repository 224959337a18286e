/**
 Thirty-two bit arithmetic and serial-number comparison, as used for the
 sequence numbers and time stamps of the KCP engine.
 */
module SerialArith {
  type u32 = x: int | 0 <= x < 0x1_0000_0000
  type byte = x: int | 0 <= x < 256

  /** Truncation to an unsigned 32-bit number. */
  function U32(x: int): u32 {
    x % 0x1_0000_0000
  }

  /** Truncation to a signed two's-complement 32-bit number. */
  function I32(x: int): int {
    var y := x % 0x1_0000_0000;
    if y < 0x8000_0000 then y else y - 0x1_0000_0000
  }

  /** The signed distance between two 32-bit time stamps. */
  function TimeDiff(later: int, earlier: int): int {
    I32(later - earlier)
  }

  /** C's signed division by a positive number, which truncates toward zero. */
  function TruncDiv(x: int, n: int): int
    requires n > 0
  {
    if x >= 0 then x / n else -((-x) / n)
  }

  function Min(a: int, b: int): int {
    if a <= b then a else b
  }

  function Max(a: int, b: int): int {
    if a >= b then a else b
  }

  /** min(max(lower, middle), upper). */
  function Bound(lower: int, middle: int, upper: int): int {
    Min(Max(lower, middle), upper)
  }

  /**
   The number system sequence numbers live in. The engine runs on Ring32, where
   numbers wrap; Wide is the reference, where they grow without bound.
   */
  datatype Ring = Wide | Ring32

  /** A number brought into the range of the ring. */
  function Norm(r: Ring, x: int): int {
    if r.Wide? then x else U32(x)
  }

  /** Signed distance in the ring: plain subtraction, or RFC 1982 ordering. */
  function Diff(r: Ring, a: int, b: int): int {
    if r.Wide? then a - b else I32(a - b)
  }

  /** The half-range window inside which Diff is exact. */
  predicate Near(r: Ring, d: int) {
    r.Wide? || -0x8000_0000 <= d < 0x8000_0000
  }

  lemma I32Exact(x: int, k: int)
    requires -0x8000_0000 <= x - k * 0x1_0000_0000 < 0x8000_0000
    ensures I32(x) == x - k * 0x1_0000_0000
  {
  }

  lemma I32Shift(x: int, k: int)
    ensures I32(x + k * 0x1_0000_0000) == I32(x)
  {
    assert (x + k * 0x1_0000_0000) % 0x1_0000_0000 == x % 0x1_0000_0000;
  }

  /** A ring distance is the true difference less a multiple of the modulus. */
  lemma DiffUnfold(r: Ring, a: int, b: int) returns (k: int)
    ensures Diff(r, a, b) == a - b - k * 0x1_0000_0000
    ensures r.Wide? ==> k == 0
    ensures Near(r, Diff(r, a, b))
  {
    if r.Wide? {
      k := 0;
    } else {
      k := (a - b) / 0x1_0000_0000;
      if (a - b) % 0x1_0000_0000 >= 0x8000_0000 {
        k := k + 1;
      }
    }
  }

  lemma DiffExact(r: Ring, a: int, b: int, k: int)
    requires Near(r, a - b - k * 0x1_0000_0000)
    requires r.Wide? ==> k == 0
    ensures Diff(r, a, b) == a - b - k * 0x1_0000_0000
  {
    if r.Ring32? {
      I32Exact(a - b, k);
    }
  }

  /** Distances to a common base subtract, as long as the result is in range. */
  lemma DiffShift(r: Ring, a: int, b: int, base: int)
    requires Near(r, Diff(r, a, base) - Diff(r, b, base))
    ensures Diff(r, a, b) == Diff(r, a, base) - Diff(r, b, base)
  {
    var i := DiffUnfold(r, a, base);
    var j := DiffUnfold(r, b, base);
    DiffExact(r, a, b, i - j);
  }

  /** Normalising either side does not change a distance. */
  lemma DiffNorm(r: Ring, a: int, b: int)
    ensures Diff(r, Norm(r, a), b) == Diff(r, a, b)
    ensures Diff(r, a, Norm(r, b)) == Diff(r, a, b)
    ensures Diff(r, Norm(r, a), Norm(r, b)) == Diff(r, a, b)
  {
    if r.Ring32? {
      var i, j := a / 0x1_0000_0000, b / 0x1_0000_0000;
      I32Shift(a - b, -i);
      I32Shift(a - b, j);
      I32Shift(a - b, j - i);
    }
  }

  /** Moving the base moves the distance. */
  lemma DiffMove(r: Ring, a: int, base: int, step: int)
    requires Near(r, Diff(r, a, base) - step)
    ensures Diff(r, a, Norm(r, base + step)) == Diff(r, a, base) - step
    ensures Diff(r, a, base + step) == Diff(r, a, base) - step
  {
    var i := DiffUnfold(r, a, base);
    DiffExact(r, a, base + step, i);
    DiffNorm(r, a, base + step);
  }

  /** Stepping a number on by one steps its distance on by one. */
  lemma DiffNext(r: Ring, a: int, base: int)
    requires 0 <= Diff(r, a, base) < 0x7fff_ffff
    ensures Diff(r, Norm(r, a + 1), base) == Diff(r, a, base) + 1
  {
    var k := DiffUnfold(r, a, base);
    DiffExact(r, a + 1, base, k);
    DiffNorm(r, a + 1, base);
  }

  lemma DiffSelf(r: Ring, a: int)
    ensures Diff(r, a, a) == 0
  {
  }

  lemma NormAdd(r: Ring, x: int, d: int)
    ensures Norm(r, Norm(r, x) + d) == Norm(r, x + d)
    ensures Norm(r, Norm(r, x)) == Norm(r, x)
  {
  }

  /** Equal distance to a base means equal number, for numbers of the ring. */
  lemma DiffEq(r: Ring, a: int, b: int, base: int)
    requires Norm(r, a) == a && Norm(r, b) == b
    requires Diff(r, a, base) == Diff(r, b, base)
    ensures a == b
  {
  }

  /** Distances of wrapped numbers are exact while the originals are near. */
  lemma WrapDiff(a: int, b: int)
    requires -0x8000_0000 <= a - b < 0x8000_0000
    ensures Diff(Ring32, U32(a), U32(b)) == a - b
    ensures Diff(Ring32, U32(a), b) == a - b
    ensures Diff(Ring32, a, U32(b)) == a - b
  {
    DiffNorm(Ring32, a, b);
    DiffExact(Ring32, a, b, 0);
  }

  /** Near numbers wrap to the same 32-bit number only if they are equal. */
  lemma WrapInjective(a: int, b: int)
    requires -0x1_0000_0000 < a - b < 0x1_0000_0000
    requires U32(a) == U32(b)
    ensures a == b
  {
  }
}
