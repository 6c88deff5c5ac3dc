/**
 The hardware stubs report nothing: the clock and every read are zero on
 every pin, and the Arduino constants keep the logic levels, the pin modes
 and the interrupt trigger modes apart. What a write leaves behind (nothing)
 is stated over runs of calls in `Session`.
 */
module StubProperties {
  import opened Arith32
  import opened Mock

  /** The mocked clock reads zero. */
  lemma MillisIsZero()
    ensures Millis() == 0
  {
  }

  /** Every digital pin, including pins 0 and 255, reads zero, which is LOW. */
  lemma DigitalReadIsLow(pin: uint8)
    ensures DigitalRead(pin) == 0
    ensures DigitalRead(pin) == LOW
    ensures DigitalRead(0) == DigitalRead(255) == 0
  {
  }

  /** Every analog pin, including pins 0 and 255, reads zero. */
  lemma AnalogReadIsZero(pin: uint8)
    ensures AnalogRead(pin) == 0
    ensures AnalogRead(0) == AnalogRead(255) == 0
  {
  }

  /** The two logic levels differ. */
  lemma LogicLevelsDistinct()
    ensures HIGH != LOW
    ensures LOW == 0 && HIGH == 1
  {
  }

  /** The three pin modes are pairwise distinct. */
  lemma PinModesDistinct()
    ensures INPUT != OUTPUT && INPUT != INPUT_PULLUP && OUTPUT != INPUT_PULLUP
    ensures INPUT == 0 && OUTPUT == 1 && INPUT_PULLUP == 2
  {
  }

  /** The three interrupt trigger modes are pairwise distinct. */
  lemma TriggerModesDistinct()
    ensures CHANGE != FALLING && CHANGE != RISING && FALLING != RISING
    ensures CHANGE == 1 && FALLING == 2 && RISING == 3
  {
  }
}
