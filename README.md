# Arduino Mock, modelled in Dafny

`src/Mock.h` declares the class `mock::Mock`. Its static members stand in
for the Arduino hardware calls so that sketch code can be built and run on
a host machine. The stubs are `millis`, `pinMode`, `digitalWrite`,
`digitalRead`, `analogWrite` and `analogRead`. Each one returns zero or does
nothing. The header also defines the Arduino constants `HIGH`, `LOW`,
`INPUT`, `OUTPUT`, `INPUT_PULLUP`, `CHANGE`, `FALLING` and `RISING`. The
one member that computes something is `map`, the linear range re-mapping
helper:

    (in_value - in_min) * (out_max - out_min) / (in_max - in_min) + out_min

Every operand is `uint32_t`.

The project has five modules:

- `Arith32` (`arith32.dfy`) holds the `uint32_t`, `uint16_t` and
  `uint8_t` types as subset types of `int`, and `Wrap32` (reduction modulo
  2^32). It also models the four C++ `uint32_t` operators: `Sub32`,
  `Add32` and `Mul32` wrap, and `Div32` truncates and needs a non-zero
  divisor. The rest of the module proves the facts about reduction and
  truncating division that the proofs below need.
- `Mock` (`mock.dfy`) holds the constants, the stubs (as functions of
  their arguments) and `Map`. `Map` is the C++ expression of line 147
  written with those four operators, in the same order. C++ leaves
  unsigned division by zero undefined, so `Map` requires
  `inMax != inMin`.
- `MapProperties` (`map_properties.dfy`) proves what the doc comment of
  `map` (src/Mock.h:129-143) promises, and under which hypotheses. A
  value of `in_min` maps to `out_min` always. A value of `in_max` maps to
  `out_max` exactly when the product of the two wrapped widths fits in 32
  bits. If the input range is increasing and the output range is
  non-decreasing, a value in the input range lands in the output range,
  even when the product wraps. If in addition
  `(in_max - in_min) * (out_max - out_min) < 2^32` (the predicate
  `NoWrap`), then `Map` of a value in the input range equals the formula
  computed on unbounded integers (`Ideal`). Under `NoWrap`, `Map` is also
  monotone and the division truncates.
  Outside these hypotheses the code just computes modulo 2^32. Only the
  wrapped differences to `in_min` matter, so a value below `in_min` is
  neither clamped nor rejected. Concrete lemmas show the failures: a
  product that wraps, a larger value mapped below a smaller one, a
  decreasing output range and a value below the input range. `CheckedMap` turns the one undefined case, the empty
  input range, into an explicit `InvalidRange` result.
- `StubProperties` (`stub_properties.dfy`) proves that every read returns
  zero on every pin and that the constants keep their three groups
  distinct.
- `Session` (`session.dfy`) models a sketch's use of the stubs: a sequence
  of calls (`Call`), each dispatched to its stub by `Perform`, and the
  replies of the whole run (`Run`). `Run` carries no state from one call
  to the next, because the stubs have none. The lemmas prove what follows
  from that. The i-th reply is the reply to the i-th call made on
  its own. Every read in a run replies zero. A digital or analog write is
  never read back at a later point of the run. A write inserted anywhere
  only adds its own empty reply, and the replies of two parts run one
  after the other are the replies of each part.

The four operators state the C++ semantics as contracts: when a result
wraps, by how much, and that the quotient truncates. The stubs and `Map`
carry no `ensures` of their own, because any postcondition on them could
only repeat their bodies. In the table below, the rows for them name the
lemmas that state their behaviour.

## Model

| member | source | states |
|---|---|---|
| Arith32.Sub32 | src/Mock.h:147 | the `uint32_t` difference is `a - b` when `b <= a`, and wraps to `2^32 - (b - a)` when `b` exceeds `a` |
| Arith32.Add32 | src/Mock.h:147 | the `uint32_t` sum is `a + b` when it fits, and `a + b - 2^32` when it does not |
| Arith32.Mul32 | src/Mock.h:147 | the `uint32_t` product is exact when `a * b < 2^32`, and otherwise differs from `a * b` by a multiple of 2^32 (with `r < 2^32`, that is `a * b` reduced modulo 2^32) |
| Arith32.Div32 | src/Mock.h:147 | for a non-zero divisor, the quotient `r` truncates: `r * b <= a < r * b + b` |
| MapProperties.CheckedMap | src/Mock.h:130-148 | the call is rejected as `InvalidRange` exactly when `in_max == in_min` (the divisor of line 147 is then zero). Otherwise it yields the value of `map`. That value is `out_min` for a value of `in_min`. For a value in the input range and `out_min <= out_max`, it lies in `[out_min, out_max]`. Under `NoWrap`, for a value in the input range, it is the re-mapping formula over unbounded integers |
| MapProperties.MapAtInMin | src/Mock.h:130-147 | a value of `in_min` is mapped to `out_min` for every non-empty input range and every output range, including ranges whose widths wrap |
| MapProperties.MapAtInMax | src/Mock.h:130-147 | a value of `in_max` is mapped to `out_max` if and only if the product of the two 32-bit widths `(in_max - in_min) * (out_max - out_min)` is below 2^32 |
| MapProperties.MapIsIdeal | src/Mock.h:146-148 | under `NoWrap`, for `in_min <= v <= in_max`, the 32-bit result equals `out_min + (v - in_min) * (out_max - out_min) / (in_max - in_min)` over unbounded integers, and that value lies in `[out_min, out_max]` |
| MapProperties.MapBetween | src/Mock.h:131-147 | values in-between are mapped to values in-between: for `in_min < in_max` and `out_min <= out_max`, `in_min <= v <= in_max` gives a result in `[out_min, out_max]`, whether or not the product wraps |
| MapProperties.MapMonotone | src/Mock.h:131-147 | under `NoWrap`, `in_min <= v <= w <= in_max` gives `map(v) <= map(w)` |
| MapProperties.MapTruncates | src/Mock.h:147 | under `NoWrap`, the distance `r` of the result from `out_min` satisfies `r * (in_max - in_min) <= (v - in_min) * (out_max - out_min) < (r + 1) * (in_max - in_min)`, so the quotient is truncated and never rounded up |
| MapProperties.MapShiftInput | src/Mock.h:147 | shifting the value and both ends of the input range by the same amount modulo 2^32 keeps the range non-empty and leaves the result unchanged, so only the wrapped offsets from `in_min` matter |
| MapProperties.MapShiftOutput | src/Mock.h:147 | shifting both ends of the output range by `k` modulo 2^32 shifts the result by `k` modulo 2^32 |
| MapProperties.TruncationExample | src/Mock.h:147 | `map(1, 0, 3, 0, 10) == 3` and `map(2, 0, 3, 0, 10) == 6` (truncated, not rounded up to 7); `map(5, 0, 10, 0, 100) == 50` |
| MapProperties.BelowRangeWraps | src/Mock.h:147 | `map(0, 1, 2, 0, 10)` is 4294967286, far outside `[0, 10]`, where the formula over unbounded integers would give -10: a value below `in_min` is wrapped, not clamped or rejected |
| MapProperties.NonMonotoneExample | src/Mock.h:131-147 | once the product wraps, monotonicity fails: with both widths 0x10000, `map(0x8000)` is 0x8000 but `map(0x10000)` is 0 |
| MapProperties.ProductWrapExample | src/Mock.h:130-147 | with both widths 0x10000 the product wraps to 0, and `in_max` is mapped to 0 instead of `out_max` |
| MapProperties.ReversedOutputExample | src/Mock.h:130-147 | with a decreasing output range, `map(10, 0, 10, 100, 0)` is 429496729, not `out_max` (0) |
| MapProperties.EmptyRangeRejected | src/Mock.h:147 | an empty input range is rejected for every value and every output range |
| StubProperties.MillisIsZero | src/Mock.h:58 | the mocked clock reads 0 |
| StubProperties.DigitalReadIsLow | src/Mock.h:96-98 | every digital pin, pins 0 and 255 included, reads 0, which is `LOW` |
| StubProperties.AnalogReadIsZero | src/Mock.h:122-124 | every analog pin, pins 0 and 255 included, reads 0 |
| StubProperties.LogicLevelsDistinct | src/Mock.h:187-188 | `HIGH` (1) differs from `LOW` (0) |
| StubProperties.PinModesDistinct | src/Mock.h:190-192 | `INPUT` (0), `OUTPUT` (1) and `INPUT_PULLUP` (2) are pairwise distinct |
| StubProperties.TriggerModesDistinct | src/Mock.h:194-196 | `CHANGE` (1), `FALLING` (2) and `RISING` (3) are pairwise distinct |
| Session.Perform | src/Mock.h:58-124 | a call replies nothing exactly when it is `pinMode`, `digitalWrite` or `analogWrite` (the `void` stubs), and every other call replies 0 |
| Session.Run | src/Mock.h:58-124 | a run of calls gets exactly one reply per call |
| Session.RunPointwise | src/Mock.h:58-124 | the stubs keep no state between calls: the i-th reply of any run is the reply the i-th call gets on its own |
| Session.RunAppend | src/Mock.h:58-124 | running one sequence of calls after another changes neither sequence's replies |
| Session.ReadsAreZero | src/Mock.h:58-124 | in any run, every `millis`, `digitalRead` and `analogRead` call replies 0, whatever came before it |
| Session.DigitalWriteNotReadBack | src/Mock.h:84-98 | a `digitalWrite(p, v)` followed, at any later point of a run, by `digitalRead(p)` gets `LOW`, so a non-zero level is never read back |
| Session.AnalogWriteNotReadBack | src/Mock.h:111-124 | an `analogWrite(p, v)` followed, at any later point of a run, by `analogRead(p)` gets 0, so a non-zero duty cycle is never read back |
| Session.WriteInvisible | src/Mock.h:71-124 | inserting a `pinMode`, `digitalWrite` or `analogWrite` call anywhere in a run adds one empty reply at its place and changes no other reply |

## Left out

- The injectable analog value (`getAnalogValue`, `setAnalogValue`, `analog_read_value`, src/Mock.h:152-177) is commented out in the source. It is not modelled, so `AnalogRead` keeps no state.
- The preprocessor guards that choose between a real Arduino build and a host build (src/Mock.h:13-15, 186-205; src/Mock.cpp:21-26) are build configuration, so the model is the host build.
- The typedefs `word` and `byte` (src/Mock.h:200-204) appear only as the subset types `uint16` and `uint8`. `boolean` is Dafny's `bool` and is not used.
- The empty constructor and destructor (src/Mock.h:39, 48) are left out. Every member is static, so the model has no class.
- src/Mock.cpp holds only includes and documentation text, so nothing in it is modelled.
- No storage (EEPROM) stubs exist in src/Mock.h, so none are modelled. Real pin, timing and hardware behaviour are also absent from the source.
- C++ integer promotion is not modelled. The operators are the unsigned 32-bit ones, which is what `uint32_t` arithmetic gives wherever `int` is at most 32 bits wide.
- Map: division by zero (`in_max == in_min`) is a precondition, because C++ leaves it undefined. `CheckedMap` is the model's explicit error result for that case.
- MapIsIdeal: stated only under `NoWrap`. The doc comment promises the re-mapping without conditions, but `ProductWrapExample` and `ReversedOutputExample` show that the code does not deliver it once a width or the product wraps.
- MapMonotone: stated only under `NoWrap`. Once the product wraps the code is not monotone, as `NonMonotoneExample` shows.
- MapTruncates: stated only under `NoWrap`. Outside it, the quotient is taken of the wrapped product.
- Session: `map` is not one of the calls of a run. It is a pure function of its arguments, and `MapProperties` covers it.
