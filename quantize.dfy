/** quantize_tensor of src/cpp_kernels.cpp: symmetric int8 quantization.
    Each input is multiplied by the scale, clamped to [-127, 127] and
    converted with a C `(int8_t)` cast, which truncates toward zero. float32
    values are modelled as reals. */
module Quantize {
  import opened CLayout

  /** The two comparisons of quantize_tensor: values above 127 become 127,
      values below -127 become -127, everything else is kept. */
  function Clamp(val: real): (r: real)
    ensures -127.0 <= r <= 127.0
    ensures -127.0 <= val <= 127.0 ==> r == val
    ensures val >= 127.0 ==> r == 127.0
    ensures val <= -127.0 ==> r == -127.0
  {
    if val > 127.0 then 127.0
    else if val < -127.0 then -127.0
    else val
  }

  /** The C conversion of a floating value to an integer type: the
      fractional part is discarded, so the result is the integer between 0
      and x that is nearest to x. */
  function TruncateToInt(x: real): (r: int)
    ensures 0.0 <= x ==> r as real <= x < r as real + 1.0
    ensures x < 0.0 ==> r as real - 1.0 < x <= r as real
  {
    if x >= 0.0 then x.Floor else -((-x).Floor)
  }

  /** One element of quantize_tensor. The cast to int8_t is in range because
      of the clamp, and -128 is never produced. */
  function QuantizeValue(x: real, scale: real): (q: Int8)
    ensures -127 <= q
  {
    var r := TruncateToInt(Clamp(x * scale));
    assert -127 <= r <= 127;
    r as Int8
  }

  /** Truncation never decreases when its argument grows. */
  lemma TruncateMonotone(x: real, y: real)
    requires x <= y
    ensures TruncateToInt(x) <= TruncateToInt(y)
  {
  }

  /** Clamping preserves order. */
  lemma ClampMonotone(x: real, y: real)
    requires x <= y
    ensures Clamp(x) <= Clamp(y)
  {
  }

  /** For a positive scale, quantization preserves order: a smaller input
      never gets a larger code. */
  lemma QuantizeMonotone(x: real, y: real, scale: real)
    requires scale > 0.0 && x <= y
    ensures QuantizeValue(x, scale) <= QuantizeValue(y, scale)
  {
    assert (y - x) * scale >= 0.0;
    ClampMonotone(x * scale, y * scale);
    TruncateMonotone(Clamp(x * scale), Clamp(y * scale));
  }

  /** Inside the representable range the code is x * scale with its
      fractional part dropped: it lies between 0 and x * scale and less than
      one step away from it. */
  lemma QuantizeInRange(x: real, scale: real)
    requires -127.0 <= x * scale <= 127.0
    ensures var q := QuantizeValue(x, scale) as real;
      (0.0 <= x * scale ==> 0.0 <= q <= x * scale) &&
      (x * scale < 0.0 ==> x * scale <= q <= 0.0) &&
      x * scale - 1.0 < q < x * scale + 1.0
  {
  }

  /** Dequantizing a code (dividing by the scale) recovers the input to
      within one quantization step 1/scale when the input was not clipped.
      Truncation makes this a full step; rounding would give half a step. */
  lemma DequantizeError(x: real, scale: real)
    requires scale > 0.0 && -127.0 <= x * scale <= 127.0
    ensures var q := QuantizeValue(x, scale) as real;
      x - 1.0 / scale < q / scale < x + 1.0 / scale
  {
    var q := QuantizeValue(x, scale) as real;
    QuantizeInRange(x, scale);
    assert q / scale - x == (q - x * scale) / scale;
    assert (q - x * scale) / scale < 1.0 / scale;
    assert -1.0 / scale < (q - x * scale) / scale;
  }

  /** Outside the representable range the code saturates at +-127. */
  lemma QuantizeSaturates(x: real, scale: real)
    ensures x * scale >= 127.0 ==> QuantizeValue(x, scale) == 127
    ensures x * scale <= -127.0 ==> QuantizeValue(x, scale) == -127
  {
  }

  /** With the scale 127.0 used for the benchmark's matrices: 1.0 and -1.0
      reach the ends of the range, 0.5 becomes 63 (63.5 truncated, not
      rounded to 64), -0.5 becomes -63 and 2.0 saturates. */
  lemma QuantizeExamples()
    ensures QuantizeValue(1.0, 127.0) == 127
    ensures QuantizeValue(-1.0, 127.0) == -127
    ensures QuantizeValue(0.5, 127.0) == 63
    ensures QuantizeValue(-0.5, 127.0) == -63
    ensures QuantizeValue(2.0, 127.0) == 127
  {
    assert TruncateToInt(63.5) == 63;
    assert TruncateToInt(-63.5) == -63;
  }

  /** quantize_tensor: output[i] for i in 0 .. n-1 is the code of input[i];
      the rest of the output buffer is not written. */
  method QuantizeTensor(input: array<real>, output: array<Int8>, n: int, scale: real)
    requires n <= input.Length && n <= output.Length
    modifies output
    ensures forall p | 0 <= p < n :: output[p] == QuantizeValue(input[p], scale)
    ensures forall p | 0 <= p < output.Length && n <= p :: output[p] == old(output[p])
  {
    var i := 0;
    while i < n
      invariant 0 <= i <= LoopCount(n)
      invariant forall p | 0 <= p < i :: output[p] == QuantizeValue(input[p], scale)
      invariant forall p | i <= p < output.Length :: output[p] == old(output[p])
    {
      var val := input[i] * scale;
      if val > 127.0 {
        val := 127.0;
      }
      if val < -127.0 {
        val := -127.0;
      }
      assert val == Clamp(input[i] * scale);
      output[i] := TruncateToInt(val) as Int8;
      i := i + 1;
    }
  }
}
