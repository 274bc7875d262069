/**
 * The analog adder RedNet logic circuit: two input pins, one output pin, and an
 * output value that is the Java `int` sum of the two inputs.
 */
module AdderAnalog {
  import opened JavaInt

  /** `getInputCount()` and `getOutputCount()`. */
  const InputCount: int := 2
  const OutputCount: int := 1

  /**
   * `recalculateOutputValues(worldTime, inputValues)`. Indexing `inputValues[1]`
   * needs at least two inputs; the world time plays no part.
   */
  function RecalculateOutputValues(worldTime: int, inputValues: seq<Int32>): (outputValues: seq<Int32>)
    requires |inputValues| >= InputCount
    ensures |outputValues| == OutputCount
    ensures (outputValues[0] - (inputValues[0] as int + inputValues[1] as int)) % TwoTo32 == 0
    ensures MinValue <= inputValues[0] as int + inputValues[1] as int <= MaxValue ==>
              outputValues[0] == inputValues[0] as int + inputValues[1] as int
  {
    [Add(inputValues[0], inputValues[1])]
  }

  /** The output is the unique Java `int` congruent to the mathematical sum. */
  lemma OutputIsWrappedSum(worldTime: int, inputValues: seq<Int32>)
    requires |inputValues| >= InputCount
    ensures RecalculateOutputValues(worldTime, inputValues) == [Wrap(inputValues[0] as int + inputValues[1] as int)]
  {
    var r := RecalculateOutputValues(worldTime, inputValues);
    WrapUnique(inputValues[0] as int + inputValues[1] as int, r[0]);
  }

  /** Overflow wraps: `Integer.MAX_VALUE + 1` is `Integer.MIN_VALUE`. */
  lemma OverflowWraps(worldTime: int)
    ensures RecalculateOutputValues(worldTime, [MaxValue, 1]) == [MinValue]
  {
    OutputIsWrappedSum(worldTime, [MaxValue, 1]);
  }

  lemma OutputIndependentOfWorldTime(t1: int, t2: int, inputValues: seq<Int32>)
    requires |inputValues| >= InputCount
    ensures RecalculateOutputValues(t1, inputValues) == RecalculateOutputValues(t2, inputValues)
  {
  }

  lemma OutputCommutative(worldTime: int, a: Int32, b: Int32)
    ensures RecalculateOutputValues(worldTime, [a, b]) == RecalculateOutputValues(worldTime, [b, a])
  {
  }

  /** Inputs past the second are ignored. */
  lemma ExtraInputsIgnored(worldTime: int, inputValues: seq<Int32>)
    requires |inputValues| >= InputCount
    ensures RecalculateOutputValues(worldTime, inputValues) == RecalculateOutputValues(worldTime, inputValues[..2])
  {
  }

  /**
   * `getInputPinLabel(pin)`: `"I"` followed by the pin's decimal text, which is
   * canonical and reads back as the pin.
   */
  function InputPinLabel(pin: Int32): (text: string)
    ensures 2 <= |text| && text[0] == 'I'
    ensures IsIntText(text[1..]) && ParseInt(text[1..]) == pin
  {
    IntToStringRoundTrip(pin);
    assert ("I" + IntToString(pin))[1..] == IntToString(pin);
    "I" + IntToString(pin)
  }

  /** `getOutputPinLabel(pin)`: `"O"` followed by the pin's decimal text. */
  function OutputPinLabel(pin: Int32): (text: string)
    ensures 2 <= |text| && text[0] == 'O'
    ensures IsIntText(text[1..]) && ParseInt(text[1..]) == pin
  {
    IntToStringRoundTrip(pin);
    assert ("O" + IntToString(pin))[1..] == IntToString(pin);
    "O" + IntToString(pin)
  }

  /** The text after the letter is exactly what `Integer.toString` writes for the pin. */
  lemma PinLabelsUseIntegerText(pin: Int32)
    ensures InputPinLabel(pin)[1..] == IntToString(pin)
    ensures OutputPinLabel(pin)[1..] == IntToString(pin)
  {
    ParseIntRoundTrip(InputPinLabel(pin)[1..]);
    ParseIntRoundTrip(OutputPinLabel(pin)[1..]);
  }

  /** Distinct pins get distinct labels, and no input label is an output label. */
  lemma PinLabelsDistinct(p: Int32, q: Int32)
    ensures InputPinLabel(p) == InputPinLabel(q) ==> p == q
    ensures OutputPinLabel(p) == OutputPinLabel(q) ==> p == q
    ensures InputPinLabel(p) != OutputPinLabel(q)
  {
    assert InputPinLabel(p)[0] != OutputPinLabel(q)[0];
  }
}
