/** The ReLU activation kernels of src/cpp_kernels.cpp: a scalar loop and an
    AVX2 loop that clamps 8 lanes at a time and finishes with a scalar tail.
    Both work in place on the first n elements of a caller-owned buffer;
    float32 elements are modelled as reals. */
module Relu {
  import opened CLayout

  /** The scalar step of relu_naive and of relu_avx's tail: a negative value
      is replaced by zero. */
  function ReluScalar(x: real): real
  {
    if x < 0.0 then 0.0 else x
  }

  /** One lane of `_mm256_max_ps(input, zeros)`: the first operand when it is
      the greater, otherwise the second. */
  function MaxPs(x: real, y: real): real
  {
    if x > y then x else y
  }

  /** The buffer after ReLU has been applied to its first n elements. */
  function ReluPrefix(s: seq<real>, n: int): (r: seq<real>)
    ensures |r| == |s|
  {
    seq(|s|, p requires 0 <= p < |s| => if p < n then ReluScalar(s[p]) else s[p])
  }

  /** The AVX lane and the scalar step agree on every value. */
  lemma MaxPsIsRelu(x: real)
    ensures MaxPs(x, 0.0) == ReluScalar(x)
  {
  }

  /** Every element below n is non-negative afterwards: negatives became 0,
      non-negatives kept their value; elements at n and beyond are as before. */
  lemma ReluPrefixAt(s: seq<real>, n: int, p: int)
    requires 0 <= p < |s|
    ensures p < n ==> ReluPrefix(s, n)[p] >= 0.0
    ensures p < n && s[p] < 0.0 ==> ReluPrefix(s, n)[p] == 0.0
    ensures p >= n || s[p] >= 0.0 ==> ReluPrefix(s, n)[p] == s[p]
  {
  }

  /** Applying ReLU twice gives the same buffer as applying it once. */
  lemma ReluIdempotent(s: seq<real>, n: int)
    ensures ReluPrefix(ReluPrefix(s, n), n) == ReluPrefix(s, n)
  {
    var once := ReluPrefix(s, n);
    forall p | 0 <= p < |s|
      ensures ReluPrefix(once, n)[p] == once[p]
    {
      ReluPrefixAt(s, n, p);
    }
  }

  /** The example `[-1, 0, 1]` maps to `[0, 0, 1]`. */
  lemma ReluExample()
    ensures ReluPrefix([-1.0, 0.0, 1.0], 3) == [0.0, 0.0, 1.0]
  {
  }

  /** relu_naive: one scalar pass over indices 0 .. n-1. */
  method ReluNaive(data: array<real>, n: int)
    requires n <= data.Length
    modifies data
    ensures data[..] == ReluPrefix(old(data[..]), n)
  {
    var i := 0;
    while i < n
      invariant 0 <= i <= LoopCount(n)
      invariant forall p | 0 <= p < i :: data[p] == ReluScalar(old(data[p]))
      invariant forall p | i <= p < data.Length :: data[p] == old(data[p])
    {
      if data[i] < 0.0 {
        data[i] := 0.0;
      }
      i := i + 1;
    }
    assert forall p | 0 <= p < data.Length :: data[..][p] == ReluPrefix(old(data[..]), n)[p];
  }

  /** One iteration of relu_avx's chunk loop: `_mm256_loadu_ps` of data[i ..
      i+7], `_mm256_max_ps` against zero in each of the 8 lanes, and
      `_mm256_storeu_ps` back to the same place. Nothing outside the 8 lanes
      changes. */
  method MaxLanes(data: array<real>, i: int)
    requires 0 <= i && i + 8 <= data.Length
    modifies data
    ensures forall p | i <= p < i + 8 :: data[p] == ReluScalar(old(data[p]))
    ensures forall p | 0 <= p < data.Length && !(i <= p < i + 8) :: data[p] == old(data[p])
  {
    var lane := 0;
    while lane < 8
      invariant 0 <= lane <= 8
      invariant forall p | i <= p < i + lane :: data[p] == ReluScalar(old(data[p]))
      invariant forall p | 0 <= p < data.Length && !(i <= p < i + lane) :: data[p] == old(data[p])
    {
      MaxPsIsRelu(data[i + lane]);
      data[i + lane] := MaxPs(data[i + lane], 0.0);
      lane := lane + 1;
    }
  }

  /** relu_avx: a chunk loop `for (; i <= n - 8; i += 8)` whose body is one
      load, an 8-lane max against zero and one store, then a scalar tail
      `for (; i < n; i++)` sharing the counter i. The ghost result `visits`
      counts how often each index was processed (each pass adds one): exactly
      once below n, never at or beyond n. */
  method ReluAvx(data: array<real>, n: int) returns (ghost visits: seq<nat>)
    requires n <= data.Length
    modifies data
    ensures data[..] == ReluPrefix(old(data[..]), n)
    ensures |visits| == data.Length
    ensures forall p | 0 <= p < data.Length :: visits[p] == if p < n then 1 else 0
  {
    visits := seq(data.Length, p => 0);
    var i := 0;
    // Main loop: 8 lanes per iteration.
    while i <= n - 8
      invariant 0 <= i <= LoopCount(n) && i % 8 == 0
      invariant |visits| == data.Length
      invariant forall p | 0 <= p < i :: data[p] == ReluScalar(old(data[p])) && visits[p] == 1
      invariant forall p | i <= p < data.Length :: data[p] == old(data[p]) && visits[p] == 0
    {
      MaxLanes(data, i);
      visits := visits[..i] + seq(8, p requires 0 <= p < 8 => visits[i + p] + 1) + visits[i + 8..];
      i := i + 8;
    }
    // The chunk loop stopped at the largest multiple of 8 not above n.
    assert n >= 0 ==> i == n / 8 * 8;
    // Cleanup loop: the remaining n - i < 8 elements.
    while i < n
      invariant 0 <= i <= LoopCount(n)
      invariant |visits| == data.Length
      invariant forall p | 0 <= p < i :: data[p] == ReluScalar(old(data[p])) && visits[p] == 1
      invariant forall p | i <= p < data.Length :: data[p] == old(data[p]) && visits[p] == 0
    {
      if data[i] < 0.0 {
        data[i] := 0.0;
      }
      visits := visits[i := visits[i] + 1];
      i := i + 1;
    }
    assert forall p | 0 <= p < data.Length :: data[..][p] == ReluPrefix(old(data[..]), n)[p];
  }

  /** Run on two copies of the same buffer, the two variants leave identical
      buffers for every n, including n < 8 and n not a multiple of 8. */
  method VariantsAgree(a: array<real>, b: array<real>, n: int)
    requires a != b && a[..] == b[..] && n <= a.Length
    modifies a, b
    ensures a[..] == b[..]
    ensures a[..] == ReluPrefix(old(a[..]), n)
  {
    ReluNaive(a, n);
    var _ := ReluAvx(b, n);
  }
}
