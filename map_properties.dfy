/**
 The three promises of the doc comment of `map` (the two ends of the input
 range land on the two ends of the output range, and a value inside lands
 inside), proved about the wrapping `uint32_t` computation together with the
 hypotheses each one needs, and what the code computes when they fail.
 */
module MapProperties {
  import opened Mock
  import opened Arith32

  /**
   The hypotheses under which the 32-bit computation never wraps for an
   in-range value: a non-empty, increasing input range, a non-decreasing
   output range, and a product of the two widths that fits in 32 bits.
   */
  predicate NoWrap(inMin: uint32, inMax: uint32, outMin: uint32, outMax: uint32) {
    && inMin < inMax
    && outMin <= outMax
    && (inMax - inMin) * (outMax - outMin) < TWO_TO_32
  }

  /** The re-mapping formula over unbounded integers, with floor division. */
  function Ideal(inValue: int, inMin: int, inMax: int, outMin: int, outMax: int): int
    requires inMin < inMax
  {
    outMin + (inValue - inMin) * (outMax - outMin) / (inMax - inMin)
  }

  /** Unfolds `Map` once its three differences and its product are known. */
  lemma MapParts(inValue: uint32, inMin: uint32, inMax: uint32, outMin: uint32, outMax: uint32,
                 offset: uint32, span: uint32, width: uint32, product: uint32)
    requires inMax != inMin
    requires Wrap32(inValue - inMin) == offset
    requires Wrap32(outMax - outMin) == span
    requires Wrap32(inMax - inMin) == width
    requires Wrap32(offset * span) == product
    ensures width != 0
    ensures Map(inValue, inMin, inMax, outMin, outMax) == Wrap32(product / width + outMin)
  {
    assert Mul32(Sub32(inValue, inMin), Sub32(outMax, outMin)) == product;
    assert Div32(product, width) == product / width;
  }

  // ---------------------------------------------------------------------
  // The promises of the doc comment

  /** A value of in_min is mapped to out_min, for every output range, wrapping or not. */
  lemma MapAtInMin(inMin: uint32, inMax: uint32, outMin: uint32, outMax: uint32)
    requires inMax != inMin
    ensures Map(inMin, inMin, inMax, outMin, outMax) == outMin
  {
    var span := Wrap32(outMax - outMin);
    Wrap32Small(0);
    MapParts(inMin, inMin, inMax, outMin, outMax, 0, span, Wrap32(inMax - inMin), 0);
    Wrap32Small(outMin);
  }

  /**
   A value of in_max is mapped to out_max EXACTLY WHEN the product of the
   two 32-bit widths does not wrap; with an increasing input range and a
   non-decreasing output range the widths are the plain differences.
   */
  lemma MapAtInMax(inMin: uint32, inMax: uint32, outMin: uint32, outMax: uint32)
    requires inMax != inMin
    ensures Map(inMax, inMin, inMax, outMin, outMax) == outMax
        <==> Wrap32(inMax - inMin) * Wrap32(outMax - outMin) < TWO_TO_32
  {
    var width := Wrap32(inMax - inMin);
    var span := Wrap32(outMax - outMin);
    var product := Wrap32(width as int * span);
    assert Map(inMax, inMin, inMax, outMin, outMax) == Wrap32(product / width + outMin) by {
      MapParts(inMax, inMin, inMax, outMin, outMax, width, span, width, product);
    }
    assert outMax == Wrap32(span + outMin) by {
      Wrap32Add(outMax - outMin, outMin);
      Wrap32Small(outMax);
    }
    WrappedQuotient(width, span);
    Wrap32AddCancel(product / width, span, outMin);
  }

  /** With ordered ranges and a product that fits, only the final addition can still wrap. */
  lemma MapUnwrapped(inValue: uint32, inMin: uint32, inMax: uint32, outMin: uint32, outMax: uint32)
    requires inMin <= inValue <= inMax && inMin < inMax && outMin <= outMax
    requires (inValue - inMin) * (outMax - outMin) < TWO_TO_32
    ensures Map(inValue, inMin, inMax, outMin, outMax)
         == Wrap32((inValue - inMin) * (outMax - outMin) / (inMax - inMin) + outMin)
  {
    var offset := inValue - inMin;
    var span := outMax - outMin;
    var width := inMax - inMin;
    Wrap32Small(offset);
    Wrap32Small(span);
    Wrap32Small(width);
    MulMono(0, offset, span);
    Wrap32Small(offset * span);
    MapParts(inValue, inMin, inMax, outMin, outMax, offset, span, width, offset * span);
  }

  /** Without wrap-around, `Map` computes the re-mapping formula exactly, and stays in the output range. */
  lemma MapIsIdeal(inValue: uint32, inMin: uint32, inMax: uint32, outMin: uint32, outMax: uint32)
    requires NoWrap(inMin, inMax, outMin, outMax)
    requires inMin <= inValue <= inMax
    ensures Map(inValue, inMin, inMax, outMin, outMax) == Ideal(inValue, inMin, inMax, outMin, outMax)
    ensures outMin <= Ideal(inValue, inMin, inMax, outMin, outMax) <= outMax
  {
    MulMono(inValue - inMin, inMax - inMin, outMax - outMin);
    MapUnwrapped(inValue, inMin, inMax, outMin, outMax);
    QuotientBound(inValue - inMin, inMax - inMin, outMax - outMin);
    Wrap32Small((inValue - inMin) * (outMax - outMin) / (inMax - inMin) + outMin);
  }

  /**
   Values in-between are mapped to values in-between, with no bound on the
   product: when `(in_value - in_min) * (out_max - out_min)` wraps, the width
   product exceeds 2^32 too, so the truncated quotient still stays below the
   output width and the final addition cannot wrap.
   */
  lemma MapBetween(inValue: uint32, inMin: uint32, inMax: uint32, outMin: uint32, outMax: uint32)
    requires inMin < inMax && outMin <= outMax
    requires inMin <= inValue <= inMax
    ensures outMin <= Map(inValue, inMin, inMax, outMin, outMax) <= outMax
  {
    var offset := inValue - inMin;
    var span := outMax - outMin;
    var width := inMax - inMin;
    Wrap32Small(offset);
    Wrap32Small(span);
    Wrap32Small(width);
    var product := Wrap32(offset * span);
    MapParts(inValue, inMin, inMax, outMin, outMax, offset, span, width, product);
    WrappedQuotientBound(offset, width, span);
    Wrap32Small(product / width + outMin);
  }

  /** Without wrap-around, a larger value never maps to a smaller one. */
  lemma MapMonotone(v: uint32, w: uint32, inMin: uint32, inMax: uint32, outMin: uint32, outMax: uint32)
    requires NoWrap(inMin, inMax, outMin, outMax)
    requires inMin <= v <= w <= inMax
    ensures Map(v, inMin, inMax, outMin, outMax) <= Map(w, inMin, inMax, outMin, outMax)
  {
    MapIsIdeal(v, inMin, inMax, outMin, outMax);
    MapIsIdeal(w, inMin, inMax, outMin, outMax);
    MulMono(0, v - inMin, outMax - outMin);
    MulMono(v - inMin, w - inMin, outMax - outMin);
    DivMono((v - inMin) * (outMax - outMin), (w - inMin) * (outMax - outMin), inMax - inMin);
  }

  /**
   The division truncates: without wrap-around, the distance of the result
   from out_min is the largest r with r * (in_max - in_min) not above
   (in_value - in_min) * (out_max - out_min); nothing is rounded up.
   */
  lemma MapTruncates(inValue: uint32, inMin: uint32, inMax: uint32, outMin: uint32, outMax: uint32)
    requires NoWrap(inMin, inMax, outMin, outMax)
    requires inMin <= inValue <= inMax
    ensures var r := Map(inValue, inMin, inMax, outMin, outMax) - outMin;
      && r * (inMax - inMin) <= (inValue - inMin) * (outMax - outMin)
      && (inValue - inMin) * (outMax - outMin) < (r + 1) * (inMax - inMin)
  {
    var n := (inValue - inMin) * (outMax - outMin);
    var d := inMax - inMin;
    var r := Map(inValue, inMin, inMax, outMin, outMax) - outMin;
    assert r == n / d by {
      MapIsIdeal(inValue, inMin, inMax, outMin, outMax);
    }
    MulMono(0, inValue - inMin, outMax - outMin);
    DivRem(n, d);
  }

  // ---------------------------------------------------------------------
  // Modular behaviour outside the hypotheses

  /**
   Only the 32-bit differences to in_min matter: shifting the value and the
   input range by the same amount, modulo 2^32, changes nothing. This is why
   a value below in_min is neither rejected nor clamped.
   */
  lemma MapShiftInput(k: int, inValue: uint32, inMin: uint32, inMax: uint32, outMin: uint32, outMax: uint32)
    requires inMax != inMin
    ensures Wrap32(inMax + k) != Wrap32(inMin + k)
    ensures Map(Wrap32(inValue + k), Wrap32(inMin + k), Wrap32(inMax + k), outMin, outMax)
         == Map(inValue, inMin, inMax, outMin, outMax)
  {
    assert Sub32(Wrap32(inValue + k), Wrap32(inMin + k)) == Sub32(inValue, inMin) by {
      ShiftedDifference(inValue, inMin, k);
    }
    assert Sub32(Wrap32(inMax + k), Wrap32(inMin + k)) == Sub32(inMax, inMin) by {
      ShiftedDifference(inMax, inMin, k);
    }
  }

  lemma MapShiftOutput(k: int, inValue: uint32, inMin: uint32, inMax: uint32, outMin: uint32, outMax: uint32)
    requires inMax != inMin
    ensures Map(inValue, inMin, inMax, Wrap32(outMin + k), Wrap32(outMax + k))
         == Wrap32(Map(inValue, inMin, inMax, outMin, outMax) + k)
  {
    assert Sub32(Wrap32(outMax + k), Wrap32(outMin + k)) == Sub32(outMax, outMin) by {
      ShiftedDifference(outMax, outMin, k);
    }
    Sub32NonZero(inMax, inMin);
    ShiftedSum(Div32(Mul32(Sub32(inValue, inMin), Sub32(outMax, outMin)), Sub32(inMax, inMin)), outMin, k);
  }

  // ---------------------------------------------------------------------
  // The undefined case as an explicit error

  /** Outcome of a re-mapping whose empty input range is reported instead of dividing by zero. */
  datatype Remapped = Mapped(value: uint32) | InvalidRange

  /**
   `map` with its one undefined case made an explicit error: an empty input
   range (`in_max == in_min`) is reported as `InvalidRange`. Every other call
   yields what `Map` computes: `out_min` for a value of `in_min`, a value in
   the output range for a value in the input range, and the re-mapping
   formula whenever nothing wraps.
   */
  function CheckedMap(inValue: uint32, inMin: uint32, inMax: uint32, outMin: uint32, outMax: uint32): (r: Remapped)
    ensures r == InvalidRange <==> inMax == inMin
    ensures r.Mapped? ==> r.value == Map(inValue, inMin, inMax, outMin, outMax)
    ensures r.Mapped? && inValue == inMin ==> r.value == outMin
    ensures r.Mapped? && inMin <= inValue <= inMax && outMin <= outMax ==> outMin <= r.value <= outMax
    ensures r.Mapped? && NoWrap(inMin, inMax, outMin, outMax) && inMin <= inValue <= inMax
         ==> r.value == Ideal(inValue, inMin, inMax, outMin, outMax)
  {
    if inMax == inMin then InvalidRange
    else
      var value := Map(inValue, inMin, inMax, outMin, outMax);
      MapAtInMin(inMin, inMax, outMin, outMax);
      assert inMin <= inValue <= inMax && outMin <= outMax ==> outMin <= value <= outMax by {
        if inMin <= inValue <= inMax && outMin <= outMax {
          MapBetween(inValue, inMin, inMax, outMin, outMax);
        }
      }
      assert NoWrap(inMin, inMax, outMin, outMax) && inMin <= inValue <= inMax
          ==> value == Ideal(inValue, inMin, inMax, outMin, outMax) by {
        if NoWrap(inMin, inMax, outMin, outMax) && inMin <= inValue <= inMax {
          MapIsIdeal(inValue, inMin, inMax, outMin, outMax);
        }
      }
      Mapped(value)
  }

  // ---------------------------------------------------------------------
  // Concrete cases

  /**
   The division truncates rather than rounds: 10/3 gives 3 and 20/3 gives 6,
   not 7; half of 0..10 is half of 0..100.
   */
  lemma TruncationExample()
    ensures Map(1, 0, 3, 0, 10) == 3
    ensures Map(2, 0, 3, 0, 10) == 6
    ensures Map(5, 0, 10, 0, 100) == 50
  {
  }

  /** A value below in_min is computed with a wrapped offset: the formula would give -10. */
  lemma BelowRangeWraps()
    ensures Ideal(0, 1, 2, 0, 10) == -10
    ensures Map(0, 1, 2, 0, 10) == 4294967286
  {
  }

  /** When the product of the widths wraps, in_max no longer reaches out_max. */
  lemma ProductWrapExample()
    ensures Map(0x1_0000, 0, 0x1_0000, 0, 0x1_0000) == 0
  {
  }

  /**
   Once the product wraps, a larger value can map to a smaller one: halfway
   along the input range gives halfway along the output range, but in_max
   gives 0.
   */
  lemma NonMonotoneExample()
    ensures Map(0x8000, 0, 0x1_0000, 0, 0x1_0000) == 0x8000
    ensures Map(0x1_0000, 0, 0x1_0000, 0, 0x1_0000) == 0
  {
  }

  /** A decreasing output range is an unsigned wrap too: in_max does not reach out_max. */
  lemma ReversedOutputExample()
    ensures Map(10, 0, 10, 100, 0) == 429496729
  {
  }

  /** An empty input range is the one invalid call: it is reported for every value. */
  lemma EmptyRangeRejected(inValue: uint32, bound: uint32, outMin: uint32, outMax: uint32)
    ensures CheckedMap(inValue, bound, bound, outMin, outMax) == InvalidRange
  {
  }
}
