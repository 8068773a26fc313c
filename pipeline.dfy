/** The quantized matrix-multiply step of the benchmark driver
    (src/main.py): two float matrices are quantized into fresh, zeroed int8
    buffers, and matmul_int8 accumulates their product into a fresh, zeroed
    int32 buffer. The timing and printing around it are not modelled. */
module Pipeline {
  import opened CLayout
  import opened Quantize
  import opened Int8Matmul

  /** Quantize the first N*N values of two float matrices with one scale
      and multiply the codes. No partial sum overflows as long as
      16129 * N fits in int32, and every result cell is within 16129 * N of
      zero. */
  method QuantizedMatmul(cA: array<real>, cB: array<real>, N: int, scale: real)
    returns (qA: array<Int8>, qB: array<Int8>, qC: array<Int32>)
    requires N > 0 && Cells(N) <= cA.Length && Cells(N) <= cB.Length
    requires MaxProduct * N <= INT32_MAX
    ensures fresh(qA) && fresh(qB) && fresh(qC)
    ensures qA.Length == Cells(N) && qB.Length == Cells(N) && qC.Length == Cells(N)
    ensures forall p | 0 <= p < Cells(N) :: qA[p] == QuantizeValue(cA[p], scale) && qB[p] == QuantizeValue(cB[p], scale)
    ensures ProductAddedI8(qC[..], seq(Cells(N), _ => 0 as Int32), qA[..], qB[..], N)
    ensures forall i, j | 0 <= i < N && 0 <= j < N ::
      (IdxInside(N, i, j); -MaxProduct * N <= qC[..][Idx(N, i, j)] as int <= MaxProduct * N)
  {
    var size := Cells(N);
    qA := new Int8[size](_ => 0);
    qB := new Int8[size](_ => 0);
    qC := new Int32[size](_ => 0);
    QuantizeTensor(cA, qA, size, scale);
    QuantizeTensor(cB, qB, size, scale);
    ghost var zero := qC[..];
    assert zero == seq(Cells(N), _ => 0 as Int32);
    QuantizedInputsNoOverflow(qA[..], qB[..], zero, N);
    MatmulInt8(qA, qB, qC, N);
    ResultBound(qC[..], zero, qA[..], qB[..], N);
  }
}
