/**
 A sketch's run against the mock: a sequence of calls to the hardware stubs
 and the sequence of replies it gets back. The stubs are static members
 without fields, so `Run` carries no state from one call to the next; the
 lemmas prove what follows from that: what was written before is never read
 back, and running one part of a sketch before another changes neither
 part's replies.
 */
module Session {
  import opened Arith32
  import opened Mock

  /** One call into the mock, with its arguments. */
  datatype Call =
    | MillisCall
    | PinModeCall(pin: uint8, mode: uint8)
    | DigitalWriteCall(pin: uint8, level: uint8)
    | DigitalReadCall(pin: uint8)
    | AnalogWriteCall(pin: uint8, duty: uint16)
    | AnalogReadCall(pin: uint8)

  /** What a call gives back: nothing for the `void` stubs, a number for the others. */
  datatype Reply = Done | Value(v: uint32)

  /** The `void` stubs: the calls that hand a value or a mode to the hardware. */
  predicate IsWrite(c: Call) {
    c.PinModeCall? || c.DigitalWriteCall? || c.AnalogWriteCall?
  }

  /** One call, dispatched to its stub: the `void` stubs reply nothing, every other stub replies zero. */
  function Perform(c: Call): (r: Reply)
    ensures r == Done <==> IsWrite(c)
    ensures r.Value? ==> r.v == 0
  {
    match c
    case MillisCall => Value(Millis())
    case PinModeCall(pin, mode) => var _ := PinMode(pin, mode); Done
    case DigitalWriteCall(pin, level) => var _ := DigitalWrite(pin, level); Done
    case DigitalReadCall(pin) => Value(DigitalRead(pin))
    case AnalogWriteCall(pin, duty) => var _ := AnalogWrite(pin, duty); Done
    case AnalogReadCall(pin) => Value(AnalogRead(pin))
  }

  /** The replies to a run of calls, made one after the other. */
  function Run(calls: seq<Call>): (replies: seq<Reply>)
    ensures |replies| == |calls|
  {
    if calls == [] then [] else [Perform(calls[0])] + Run(calls[1..])
  }

  /** The i-th reply of a run is the reply to the i-th call made on its own. */
  lemma {:induction false} RunPointwise(calls: seq<Call>, i: nat)
    requires i < |calls|
    ensures Run(calls)[i] == Perform(calls[i])
  {
    if i > 0 {
      RunPointwise(calls[1..], i - 1);
    }
  }

  /** Running one part of a sketch after another changes neither part's replies. */
  lemma {:induction false} RunAppend(first: seq<Call>, rest: seq<Call>)
    ensures Run(first + rest) == Run(first) + Run(rest)
  {
    if first == [] {
      assert first + rest == rest;
    } else {
      assert (first + rest)[1..] == first[1..] + rest;
      RunAppend(first[1..], rest);
    }
  }

  /** In any run, every clock, digital or analog read replies zero, on every pin. */
  lemma ReadsAreZero(calls: seq<Call>, i: nat)
    requires i < |calls| && !IsWrite(calls[i])
    ensures Run(calls)[i] == Value(0)
  {
    RunPointwise(calls, i);
  }

  /**
   A digital write followed, at any later point of the run, by a read of
   the same pin: the read replies LOW, so a non-zero level is not read back.
   */
  lemma DigitalWriteNotReadBack(calls: seq<Call>, i: nat, j: nat)
    requires i < j < |calls|
    requires calls[i].DigitalWriteCall? && calls[j] == DigitalReadCall(calls[i].pin)
    ensures Run(calls)[j] == Value(LOW)
    ensures calls[i].level != LOW ==> Run(calls)[j] != Value(calls[i].level)
  {
    RunPointwise(calls, j);
  }

  /**
   An analog write followed, at any later point of the run, by a read of
   the same pin: the read replies zero, so a non-zero duty cycle is not read back.
   */
  lemma AnalogWriteNotReadBack(calls: seq<Call>, i: nat, j: nat)
    requires i < j < |calls|
    requires calls[i].AnalogWriteCall? && calls[j] == AnalogReadCall(calls[i].pin)
    ensures Run(calls)[j] == Value(0)
    ensures calls[i].duty != 0 ==> Run(calls)[j] != Value(calls[i].duty)
  {
    RunPointwise(calls, j);
  }

  /**
   A write inserted anywhere in a run is invisible to every other call: it
   adds one `Done` reply at its own place and changes no other reply. The
   second clause spells out the run without the write, so that the two runs
   can be compared side by side.
   */
  lemma WriteInvisible(before: seq<Call>, write: Call, after: seq<Call>)
    requires IsWrite(write)
    ensures Run(before + [write] + after) == Run(before) + [Done] + Run(after)
    ensures Run(before + after) == Run(before) + Run(after)
  {
    assert Run([write]) == [Done];
    RunAppend(before + [write], after);
    RunAppend(before, [write]);
    RunAppend(before, after);
  }
}
