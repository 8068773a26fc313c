/** The part of softmax_naive in src/cpp_kernels.cpp that has an exact
    meaning over the reals: find_max, and the shift `input[i] - max_val` that
    every exponent argument goes through. */
module Softmax {
  import opened CLayout

  /** find_max: a running maximum started at data[0]. data[0] is read even
      when n <= 0, so the buffer must hold at least one element; the result
      is data[0] or one of data[1 .. n-1], and is at least every element of
      data[0 .. n-1]. */
  method FindMax(data: array<real>, n: int) returns (maxVal: real)
    requires 1 <= data.Length && n <= data.Length
    ensures maxVal == data[0] || exists k | 1 <= k < n :: maxVal == data[k]
    ensures data[0] <= maxVal
    ensures forall k | 0 <= k < n :: data[k] <= maxVal
  {
    maxVal := data[0];
    var i := 1;
    while i < n
      invariant 1 <= i <= if n < 1 then 1 else n
      invariant maxVal == data[0] || exists k | 1 <= k < i :: maxVal == data[k]
      invariant data[0] <= maxVal
      invariant forall k | 0 <= k < i :: data[k] <= maxVal
    {
      if data[i] > maxVal {
        maxVal := data[i];
      }
      i := i + 1;
    }
  }

  /** The exponent arguments of softmax_naive's first loop: input[i] minus
      the maximum. Every one is at most 0 (so no exponential exceeds 1) and,
      for n >= 1, one of them is exactly 0 (so the sum of the exponentials is
      at least 1 and the normalising division is never by zero). */
  method ExponentArguments(input: array<real>, n: int) returns (maxVal: real, args: seq<real>)
    requires 1 <= input.Length && n <= input.Length
    ensures forall k | 0 <= k < n :: input[k] <= maxVal
    ensures |args| == LoopCount(n)
    ensures forall k | 0 <= k < |args| :: args[k] == input[k] - maxVal
    ensures forall k | 0 <= k < |args| :: args[k] <= 0.0
    ensures n >= 1 ==> exists k | 0 <= k < |args| :: args[k] == 0.0
  {
    maxVal := FindMax(input, n);
    args := [];
    var i := 0;
    while i < n
      invariant 0 <= i <= LoopCount(n)
      invariant |args| == i
      invariant forall k | 0 <= k < i :: args[k] == input[k] - maxVal
    {
      args := args + [input[i] - maxVal];
      i := i + 1;
    }
    if n >= 1 {
      if maxVal == input[0] {
        assert args[0] == 0.0;
      } else {
        var k :| 1 <= k < n && maxVal == input[k];
        assert args[k] == 0.0;
      }
    }
  }
}
