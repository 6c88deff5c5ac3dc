/**
 The `uint32_t` arithmetic of C++ (`<cstdint>`): fixed-width unsigned types
 as subset types of `int`, reduction modulo 2^32, and the facts about
 reduction, products and truncating division that the proofs about `map`
 rest on.
 */
module Arith32 {

  /** Size of the `uint32_t` value space. */
  const TWO_TO_32: int := 0x1_0000_0000

  /** The C++ fixed-width unsigned integer types (`byte` is `uint8`, `word` is `uint16`). */
  type uint8 = x: int | 0 <= x < 0x100
  type uint16 = x: int | 0 <= x < 0x1_0000
  type uint32 = x: int | 0 <= x < TWO_TO_32

  /** Reduction modulo 2^32: what a `uint32_t` keeps of an integer result. */
  function Wrap32(x: int): uint32 {
    x % TWO_TO_32
  }

  // The four `uint32_t` operators of C++: `-`, `+` and `*` wrap modulo 2^32,
  // `/` truncates and is undefined for a zero divisor.

  /** `a - b` wraps once, to `a - b + 2^32`, when `b` exceeds `a`. */
  function Sub32(a: uint32, b: uint32): (r: uint32)
    ensures a >= b ==> r == a - b
    ensures a < b ==> r == TWO_TO_32 - (b - a)
  {
    Wrap32(a - b)
  }

  /** `a + b` wraps once, to `a + b - 2^32`, when the sum does not fit. */
  function Add32(a: uint32, b: uint32): (r: uint32)
    ensures a + b < TWO_TO_32 ==> r == a + b
    ensures a + b >= TWO_TO_32 ==> r == a + b - TWO_TO_32
  {
    Wrap32(a + b)
  }

  /**
   `a * b` is exact when the product fits; otherwise it is the one
   `uint32_t` value that differs from the product by a multiple of 2^32.
   */
  function Mul32(a: uint32, b: uint32): (r: uint32)
    ensures a * b < TWO_TO_32 ==> r == a * b
    ensures (a * b - r) % TWO_TO_32 == 0
  {
    var p := a * b;
    assert p - Wrap32(p) == p / TWO_TO_32 * TWO_TO_32;
    Wrap32Shift(0, p / TWO_TO_32);
    Wrap32(p)
  }

  /** `a / b` truncates: `r` is the largest value with `r * b` not above `a`. */
  function Div32(a: uint32, b: uint32): (r: uint32)
    requires b != 0
    ensures r * b <= a < r * b + b
  {
    DivRem(a, b);
    a / b
  }

  lemma Wrap32Shift(x: int, n: int)
    ensures Wrap32(x + n * TWO_TO_32) == Wrap32(x)
  {
  }

  lemma Wrap32Small(x: int)
    requires 0 <= x < TWO_TO_32
    ensures Wrap32(x) == x
  {
  }

  /** Reducing an operand before an addition or a subtraction does not change the reduced result. */
  lemma Wrap32Add(a: int, b: int)
    ensures Wrap32(Wrap32(a) + b) == Wrap32(a + b)
    ensures Wrap32(a - Wrap32(b)) == Wrap32(a - b)
  {
    Wrap32Shift(a + b, -(a / TWO_TO_32));
    Wrap32Shift(a - b, b / TWO_TO_32);
  }

  /** Adding the same amount to two `uint32_t` values keeps them apart modulo 2^32. */
  lemma Wrap32AddCancel(a: int, b: int, c: int)
    requires 0 <= a < TWO_TO_32 && 0 <= b < TWO_TO_32
    ensures Wrap32(a + c) == Wrap32(b + c) <==> a == b
  {
    Wrap32Shift(a + c, -((a + c) / TWO_TO_32));
    Wrap32Shift(b + c, -((b + c) / TWO_TO_32));
  }

  /** The difference of two shifted values, reduced, is the reduced difference. */
  lemma ShiftedDifference(a: int, b: int, k: int)
    ensures Wrap32(Wrap32(a + k) - Wrap32(b + k)) == Wrap32(a - b)
  {
    Wrap32Add(a + k, -(Wrap32(b + k) as int));
    Wrap32Add(a + k, b + k);
  }

  lemma MulMono(a: int, b: int, c: int)
    requires 0 <= a <= b && 0 <= c
    ensures 0 <= a * c <= b * c
  {
  }

  lemma DivRem(n: int, d: int)
    requires 0 <= n && 0 < d
    ensures n / d * d <= n < n / d * d + d
  {
    assert n == d * (n / d) + n % d;
  }

  lemma DivNonNeg(n: int, d: int)
    requires 0 <= n && 0 < d
    ensures 0 <= n / d
  {
  }

  /** Truncating division of a non-negative number: the remainder lies in [0, d). */
  lemma DivBounds(n: int, d: int)
    requires 0 <= n && 0 < d
    ensures 0 <= n / d <= n
    ensures n / d * d <= n < n / d * d + d
  {
    DivRem(n, d);
    DivNonNeg(n, d);
    MulMono(1, d, n / d);
  }

  /** Truncating division is determined by that remainder bound. */
  lemma DivUnique(n: int, d: int, q: int)
    requires 0 <= n && 0 <= q && 0 < d
    requires q * d <= n < q * d + d
    ensures n / d == q
  {
    var q' := n / d;
    DivBounds(n, d);
    if q' > q {
      MulMono(q + 1, q', d);
      assert false;
    } else if q' < q {
      MulMono(q' + 1, q, d);
      assert false;
    }
  }

  lemma DivMono(a: int, b: int, d: int)
    requires 0 <= a <= b && 0 < d
    ensures a / d <= b / d
  {
    DivBounds(a, d);
    DivBounds(b, d);
    if a / d > b / d {
      MulMono(b / d + 1, a / d, d);
      assert false;
    }
  }

  lemma DivOfMul(s: int, d: int)
    requires 0 <= s && 0 < d
    ensures s * d / d == s
  {
    MulMono(0, s, d);
    DivUnique(s * d, d, s);
  }

  /** A part of the divisor, times any non-negative factor, divided by the divisor, stays below that factor. */
  lemma QuotientBound(offset: int, width: int, span: int)
    requires 0 <= offset <= width && 0 < width && 0 <= span
    ensures 0 <= offset * span / width <= span
  {
    MulMono(offset, width, span);
    DivBounds(offset * span, width);
    DivMono(offset * span, width * span, width);
    DivOfMul(span, width);
  }

  /**
   The quotient bound holds of the wrapped product too: if `offset * span`
   wraps, then `width * span` is at least 2^32, above the wrapped product.
   */
  lemma WrappedQuotientBound(offset: uint32, width: uint32, span: uint32)
    requires offset <= width && 0 < width
    ensures 0 <= Wrap32(offset * span) / width <= span
  {
    var product := Wrap32(offset * span);
    var q := product / width;
    DivBounds(product, width);
    if offset * span < TWO_TO_32 {
      MulMono(0, offset, span);
      Wrap32Small(offset * span);
      QuotientBound(offset, width, span);
    } else {
      MulMono(offset, width, span);
      if q > span {
        MulMono(span + 1, q, width);
        assert false;
      }
    }
  }

  /** `w * s`, reduced, divided by `w` gives back `s` exactly when the product did not wrap. */
  lemma WrappedQuotient(w: uint32, s: uint32)
    requires 0 < w
    ensures 0 <= Wrap32(w * s) / w < TWO_TO_32
    ensures Wrap32(w * s) / w == s <==> w * s < TWO_TO_32
  {
    var product := Wrap32(w * s);
    DivBounds(product, w);
    if w * s < TWO_TO_32 {
      assert product == s * w by {
        MulMono(0, s, w);
        Wrap32Small(w * s);
      }
      DivOfMul(s, w);
    } else {
      assert product / w != s by {
        assert product / w * w <= product;
      }
    }
  }

  /** Distinct `uint32_t` values have a non-zero difference. */
  lemma Sub32NonZero(a: uint32, b: uint32)
    requires a != b
    ensures Sub32(a, b) != 0
  {
  }

  /** Shifting the second operand of an addition shifts the sum, modulo 2^32. */
  lemma ShiftedSum(q: uint32, o: uint32, k: int)
    ensures Add32(q, Wrap32(o + k)) == Wrap32(Add32(q, o) + k)
  {
    Wrap32Add(o + k, q);
    Wrap32Add(q + o, k);
  }
}
