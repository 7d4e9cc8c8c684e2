/**
 * Fixed-width integer behaviour used by the resynthesiser: 16-bit samples,
 * the 128-bit score accumulator and 64-bit `usize` arithmetic. Every
 * wrap-around is written out, following what a Rust release build does
 * (overflow checks off); a debug build panics at the same points instead.
 */
module Ints {

  const I16_MIN: int := -0x8000
  const I16_MAX: int := 0x7fff
  const I16_RANGE: int := 0x1_0000

  /** One 16-bit signed PCM sample (`i16`). */
  type I16 = x: int | I16_MIN <= x <= I16_MAX

  const I128_MAX: int := 0x7fff_ffff_ffff_ffff_ffff_ffff_ffff_ffff

  /** The squared-error accumulator (`i128`). */
  type I128 = x: int | -I128_MAX - 1 <= x <= I128_MAX

  /** One more than the largest `usize`. */
  const USIZE_LIMIT: int := 0x1_0000_0000_0000_0000

  function Min(a: int, b: int): int { if a <= b then a else b }

  /** Two's-complement reduction of an integer into 16 bits. */
  function Wrap16(x: int): (r: I16)
    ensures I16_MIN <= x <= I16_MAX ==> r == x
  {
    (x - I16_MIN) % I16_RANGE + I16_MIN
  }

  /** `Wrap16` is determined by the residue: two integers that differ by a
      multiple of 2^16 wrap to the same sample. */
  lemma Wrap16Shift(x: int, q: int)
    ensures Wrap16(x + I16_RANGE * q) == Wrap16(x)
  {
    var a := x - I16_MIN;
    var m := a % I16_RANGE;
    assert a == I16_RANGE * (a / I16_RANGE) + m;
    assert (a + I16_RANGE * q) == I16_RANGE * (a / I16_RANGE + q) + m;
    assert 0 <= m < I16_RANGE;
    assert (a + I16_RANGE * q) % I16_RANGE == m;
  }

  /** Wrapping once per step or once at the end gives the same sample. */
  lemma {:induction false} Wrap16Add(x: int, y: int)
    ensures Wrap16(Wrap16(x) + y) == Wrap16(x + y)
  {
    var a := x - I16_MIN;
    var q := a / I16_RANGE;
    assert a == I16_RANGE * q + a % I16_RANGE;
    assert Wrap16(x) == x - I16_RANGE * q;
    Wrap16Shift(x + y, -q);
    assert Wrap16(x) + y == (x + y) + I16_RANGE * (-q);
  }

  /** `i16 += i16` in a release build: the sum of two samples leaves the
      16-bit range by less than one turn, so one correction suffices. */
  function WrappingAdd16(a: I16, b: I16): I16 {
    var s := a + b;
    if s > I16_MAX then s - I16_RANGE else if s < I16_MIN then s + I16_RANGE else s
  }

  /** The wrapping sum is the two's-complement reduction of the exact sum. */
  lemma WrappingAdd16Wraps(a: I16, b: I16)
    ensures WrappingAdd16(a, b) == Wrap16(a + b)
  {
    var s := a + b;
    if s > I16_MAX {
      Wrap16Shift(s - I16_RANGE, 1);
    } else if s < I16_MIN {
      Wrap16Shift(s + I16_RANGE, -1);
    }
  }

  /** `i16::abs` in a release build: the magnitude, except that the most
      negative sample has none and comes back unchanged. */
  function WrappingAbs16(x: I16): (r: I16)
    ensures x != I16_MIN ==> r >= 0 && (r == x || r == -x)
    ensures x == I16_MIN ==> r == x
  {
    if x == I16_MIN then x else if x < 0 then -x else x
  }

  /** `usize::overflowing_sub`: the wrapped difference and whether it wrapped. */
  function OverflowingSub(a: nat, b: nat): (r: (nat, bool))
    ensures !r.1 <==> b <= a
    ensures !r.1 ==> r.0 + b == a
  {
    if b <= a then (a - b, false) else ((a - b) % USIZE_LIMIT, true)
  }

  /** `usize - usize` in a release build. */
  function WrappingSub(a: nat, b: nat): (r: nat)
    ensures b <= a ==> r + b == a
    ensures a < b <= a + USIZE_LIMIT ==> r == a + USIZE_LIMIT - b
  {
    if b <= a then a - b else (a - b) % USIZE_LIMIT
  }
}

/** Small facts of multiplication and division by a variable divisor, which
    the solver does not find unaided. */
module Arith {

  lemma MulMono(a: int, b: int, c: int)
    requires a <= b && c >= 0
    ensures a * c <= b * c
  {
    assert b * c - a * c == (b - a) * c;
  }

  /** One fewer factor of `c` is `c` less. */
  lemma MulPred(k: int, c: int)
    ensures (k - 1) * c == k * c - c
  {
  }

  /** Division is exact on a multiple and leaves no remainder. */
  lemma MultipleDiv(q: int, c: int)
    requires c > 0
    ensures (q * c) / c == q && (q * c) % c == 0
  {
    var d, r := (q * c) / c, (q * c) % c;
    assert q * c == d * c + r && 0 <= r < c;
    assert (q - d) * c == r;
    if q - d >= 1 { MulMono(1, q - d, c); }
    if q - d <= -1 { MulMono(q - d, -1, c); }
  }

  /** Quotient and remainder are unique. */
  lemma DivUnique(q: int, r: int, c: int)
    requires c > 0 && 0 <= r < c
    ensures (q * c + r) / c == q && (q * c + r) % c == r
  {
    var n := q * c + r;
    var d, m := n / c, n % c;
    assert n == d * c + m && 0 <= m < c;
    assert (q - d) * c == m - r;
    if q - d >= 1 { MulMono(1, q - d, c); }
    if q - d <= -1 { MulMono(q - d, -1, c); }
  }

  /** One more divisor's worth in the dividend is one more in the quotient. */
  lemma DivStep(n: int, c: int)
    requires c > 0
    ensures (n + c) / c == n / c + 1
  {
    var q, r := n / c, n % c;
    assert (q + 1) * c + r == n + c;
    DivUnique(q + 1, r, c);
  }

  /** A multiple of `c` is `c` times its quotient. */
  lemma MultipleOf(n: int, c: int)
    requires c > 0 && n % c == 0
    ensures n == (n / c) * c
  {
  }

  /** Removing one frame of `c` from a non-empty whole number of frames. */
  lemma DropFrame(n: int, c: int)
    requires c > 0 && n > 0 && n % c == 0
    ensures n >= c && (n - c) % c == 0 && (n - c) / c == n / c - 1
  {
    var q := n / c;
    MultipleOf(n, c);
    if q <= 0 { MulMono(q, 0, c); }
    MulMono(1, q, c);
    assert n - c == (q - 1) * c;
    MultipleDiv(q - 1, c);
  }

  /** Adding one frame of `c` to a whole number of frames. */
  lemma AddFrame(n: int, c: int)
    requires c > 0 && n % c == 0
    ensures (n + c) % c == 0 && (n + c) / c == n / c + 1
  {
    var q := n / c;
    MultipleOf(n, c);
    assert n + c == (q + 1) * c;
    MultipleDiv(q + 1, c);
  }

  /** A frame that starts inside a whole number of frames ends inside it. */
  lemma NextFrameFits(i: int, n: int, c: int)
    requires c > 0 && 0 <= i < n && i % c == 0 && n % c == 0
    ensures i + c <= n
  {
    var a, b := i / c, n / c;
    MultipleOf(i, c);
    MultipleOf(n, c);
    if a >= b { MulMono(b, a, c); }
    MulMono(a + 1, b, c);
  }

  /** The quotient of a non-negative dividend brackets it between two
      consecutive multiples of the divisor. */
  lemma DivBounds(a: int, b: int)
    requires a >= 0 && b > 0
    ensures a / b >= 0
    ensures 0 <= (a / b) * b <= a < (a / b + 1) * b
  {
    var q := a / b;
    assert a == q * b + a % b;
    assert (q + 1) * b == q * b + b;
    if q < 0 { MulMono(q, -1, b); }
    MulMono(0, q, b);
  }

  /** Non-negative quotients never exceed the dividend. */
  lemma DivLe(a: int, b: int)
    requires a >= 0 && b > 0
    ensures 0 <= a / b <= a
  {
    var q := a / b;
    assert a == q * b + a % b;
    if q < 0 { MulMono(q, -1, b); }
    MulMono(1, b, q);
  }
}
