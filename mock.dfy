/**
 The Arduino mock: static stand-ins for the Arduino hardware calls, the
 Arduino constants, and the one member that computes something, the linear
 range re-mapping helper `map`.
 */
module Mock {

  import opened Arith32

  // Arduino logic levels.
  const HIGH: uint8 := 0x1
  const LOW: uint8 := 0x0

  // Arduino pin modes.
  const INPUT: uint8 := 0x0
  const OUTPUT: uint8 := 0x1
  const INPUT_PULLUP: uint8 := 0x2

  // Arduino interrupt trigger modes.
  const CHANGE: uint8 := 1
  const FALLING: uint8 := 2
  const RISING: uint8 := 3

  /** Mocked `millis()`: the clock never advances. */
  function Millis(): uint32 {
    0
  }

  /** Mocked `pinMode()`: returns without action. */
  function PinMode(pin: uint8, mode: uint8): () {
    ()
  }

  /** Mocked `digitalWrite()`: returns without action. */
  function DigitalWrite(pin: uint8, value: uint8): () {
    ()
  }

  /** Mocked `digitalRead()`: every pin reads zero. */
  function DigitalRead(pin: uint8): uint16 {
    0
  }

  /** Mocked `analogWrite()`: returns without action. */
  function AnalogWrite(pin: uint8, value: uint16): () {
    ()
  }

  /** Mocked `analogRead()`: every pin reads zero. */
  function AnalogRead(pin: uint8): uint16 {
    0
  }

  /**
   `map`: the C++ expression
   `(in_value - in_min) * (out_max - out_min) / (in_max - in_min) + out_min`
   with every operator the `uint32_t` one, so the three subtractions, the
   product and the final addition each wrap modulo 2^32 and the division
   truncates. Unsigned division by zero is undefined in C++, so the input
   range must not be empty.
   */
  function Map(inValue: uint32, inMin: uint32, inMax: uint32, outMin: uint32, outMax: uint32): uint32
    requires inMax != inMin
  {
    Add32(Div32(Mul32(Sub32(inValue, inMin), Sub32(outMax, outMin)), Sub32(inMax, inMin)), outMin)
  }
}
