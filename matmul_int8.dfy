/** matmul_int8 of src/cpp_kernels.cpp: the i-k-j accumulation C += A x B on
    int8 matrices with an int32 accumulator. Each product `val_A * B[k*N+j]`
    is formed in C `int` (the int8 operands are promoted), so only the stores
    into C can leave the int32 range; a signed overflow there is undefined in
    C, so the model demands that no partial sum leaves the range. */
module Int8Matmul {
  import opened CLayout

  /** The first m integer products of row i of A with column j of B. */
  function DotI8(A: seq<Int8>, B: seq<Int8>, N: int, i: int, j: int, m: int): int
    requires 0 <= i < N && 0 <= j < N && 0 <= m <= N
    requires Cells(N) <= |A| && Cells(N) <= |B|
    decreases m
  {
    if m == 0 then 0
    else
      IdxInside(N, i, m - 1);
      IdxInside(N, m - 1, j);
      DotI8(A, B, N, i, j, m - 1) + A[Idx(N, i, m - 1)] as int * B[Idx(N, m - 1, j)] as int
  }

  /** Largest magnitude of a product of two values in [-127, 127]. */
  const MaxProduct: int := 127 * 127

  /** Every one of the first n cells is in [-127, 127]: -128, the one int8
      value quantize_tensor never produces, does not occur. */
  ghost predicate Symmetric(s: seq<Int8>, n: int)
    requires n <= |s|
  {
    forall p | 0 <= p < n :: -127 <= s[p]
  }

  /** The value stored into cell (i, j) after the first m passes of the k
      loop is C0[i*N+j] + DotI8(..., m); matmul_int8 is defined only when
      every such value fits in int32. */
  ghost predicate NoOverflow(A: seq<Int8>, B: seq<Int8>, C0: seq<Int32>, N: int)
    requires Cells(N) <= |A| && Cells(N) <= |B| && Cells(N) <= |C0|
  {
    forall i, j, m | 0 <= i < N && 0 <= j < N && 0 <= m <= N ::
      (IdxInside(N, i, j); INT32_MIN <= C0[Idx(N, i, j)] as int + DotI8(A, B, N, i, j, m) <= INT32_MAX)
  }

  /** Rows 0 .. n-1 of C hold the same rows of C0 plus the integer product. */
  ghost predicate RowsDoneI8(C: seq<Int32>, C0: seq<Int32>, A: seq<Int8>, B: seq<Int8>, N: int, n: int)
    requires 0 <= n <= LoopCount(N)
    requires Cells(N) <= |C| && Cells(N) <= |C0| && Cells(N) <= |A| && Cells(N) <= |B|
  {
    forall r, c | 0 <= r < n && 0 <= c < N ::
      (IdxInside(N, r, c); C[Idx(N, r, c)] as int == C0[Idx(N, r, c)] as int + DotI8(A, B, N, r, c, N))
  }

  /** Every cell (i, j) of C holds the same cell of C0 plus the integer dot
      product of row i of A with column j of B. */
  ghost predicate ProductAddedI8(C: seq<Int32>, C0: seq<Int32>, A: seq<Int8>, B: seq<Int8>, N: int)
    requires Cells(N) <= |C| && Cells(N) <= |C0| && Cells(N) <= |A| && Cells(N) <= |B|
  {
    RowsDoneI8(C, C0, A, B, N, LoopCount(N))
  }

  /** Two magnitudes of at most 127 have a product of at most 16129. */
  lemma MagnitudeProductBound(x: nat, y: nat)
    requires x <= 127 && y <= 127
    ensures x * y <= MaxProduct
  {
    assert (127 - x) * y >= 0;
  }

  /** Two values in [-127, 127] have a product of magnitude at most 16129. */
  lemma ProductBound(x: int, y: int)
    requires -127 <= x <= 127 && -127 <= y <= 127
    ensures -MaxProduct <= x * y <= MaxProduct
  {
    var ax: nat := if x < 0 then -x else x;
    var ay: nat := if y < 0 then -y else y;
    MagnitudeProductBound(ax, ay);
    assert x * y == ax * ay || x * y == -(ax * ay);
  }

  /** With symmetric int8 inputs, the first m products sum to at most
      16129 * m in magnitude. */
  lemma {:induction false} DotI8Bound(A: seq<Int8>, B: seq<Int8>, N: int, i: int, j: int, m: int)
    requires 0 <= i < N && 0 <= j < N && 0 <= m <= N
    requires Cells(N) <= |A| && Cells(N) <= |B|
    requires Symmetric(A, Cells(N)) && Symmetric(B, Cells(N))
    ensures -MaxProduct * m <= DotI8(A, B, N, i, j, m) <= MaxProduct * m
  {
    if m > 0 {
      DotI8Bound(A, B, N, i, j, m - 1);
      IdxInside(N, i, m - 1);
      IdxInside(N, m - 1, j);
      ProductBound(A[Idx(N, i, m - 1)] as int, B[Idx(N, m - 1, j)] as int);
    }
  }

  /** The setting of the benchmark: symmetric inputs (as quantize_tensor
      produces them), an accumulator that starts at zero and 16129 * N within
      int32. Then no partial sum overflows. */
  lemma QuantizedInputsNoOverflow(A: seq<Int8>, B: seq<Int8>, C0: seq<Int32>, N: int)
    requires Cells(N) <= |A| && Cells(N) <= |B| && Cells(N) <= |C0|
    requires Symmetric(A, Cells(N)) && Symmetric(B, Cells(N))
    requires forall p | 0 <= p < Cells(N) :: C0[p] == 0
    requires MaxProduct * N <= INT32_MAX
    ensures NoOverflow(A, B, C0, N)
  {
    forall i, j, m | 0 <= i < N && 0 <= j < N && 0 <= m <= N
      ensures (IdxInside(N, i, j); INT32_MIN <= C0[Idx(N, i, j)] as int + DotI8(A, B, N, i, j, m) <= INT32_MAX)
    {
      IdxInside(N, i, j);
      DotI8Bound(A, B, N, i, j, m);
      assert MaxProduct * m <= MaxProduct * N;
    }
  }

  /** The final bound: starting from zero with symmetric inputs, every cell
      of the result has magnitude at most 16129 * N. */
  lemma ResultBound(C: seq<Int32>, C0: seq<Int32>, A: seq<Int8>, B: seq<Int8>, N: int)
    requires Cells(N) <= |C| && Cells(N) <= |C0| && Cells(N) <= |A| && Cells(N) <= |B|
    requires Symmetric(A, Cells(N)) && Symmetric(B, Cells(N))
    requires forall p | 0 <= p < Cells(N) :: C0[p] == 0
    requires ProductAddedI8(C, C0, A, B, N)
    ensures forall i, j | 0 <= i < N && 0 <= j < N ::
      (IdxInside(N, i, j); -MaxProduct * N <= C[Idx(N, i, j)] as int <= MaxProduct * N)
  {
    forall i, j | 0 <= i < N && 0 <= j < N
      ensures (IdxInside(N, i, j); -MaxProduct * N <= C[Idx(N, i, j)] as int <= MaxProduct * N)
    {
      IdxInside(N, i, j);
      DotI8Bound(A, B, N, i, j, N);
    }
  }

  /** The update `C[i*N+j] += val_A * B[k*N+j]` turns a cell holding
      start + DotI8(..., k) into one holding start + DotI8(..., k + 1). */
  lemma AccumulateStepI8(A: seq<Int8>, B: seq<Int8>, N: int, i: int, j: int, k: int,
                         start: int, cell: int, valA: int, valB: int)
    requires 0 <= i < N && 0 <= j < N && 0 <= k < N
    requires Cells(N) <= |A| && Cells(N) <= |B|
    requires (IdxInside(N, i, k); valA == A[Idx(N, i, k)] as int)
    requires (IdxInside(N, k, j); valB == B[Idx(N, k, j)] as int)
    requires cell == start + DotI8(A, B, N, i, j, k)
    ensures cell + valA * valB == start + DotI8(A, B, N, i, j, k + 1)
  {
  }

  /** Every partial sum of row i, started from C0, fits in int32. */
  ghost predicate RowFits(C0: seq<Int32>, A: seq<Int8>, B: seq<Int8>, N: int, i: int)
    requires 0 <= i < N
    requires Cells(N) <= |C0| && Cells(N) <= |A| && Cells(N) <= |B|
  {
    forall c, m | 0 <= c < N && 0 <= m <= N ::
      (IdxInside(N, i, c); INT32_MIN <= C0[Idx(N, i, c)] as int + DotI8(A, B, N, i, c, m) <= INT32_MAX)
  }

  /** The j loop for (i, k) can add valA times row k of b to row i of C
      without leaving int32. */
  ghost predicate ScaledRowFits(C: seq<Int32>, b: seq<Int8>, N: int, i: int, k: int, valA: Int8)
    requires 0 <= i < N && 0 <= k < N
    requires Cells(N) <= |C| && Cells(N) <= |b|
  {
    forall c | 0 <= c < N ::
      (IdxInside(N, i, c); IdxInside(N, k, c);
       INT32_MIN <= C[Idx(N, i, c)] as int + valA as int * b[Idx(N, k, c)] as int <= INT32_MAX)
  }

  /** After the j loop for (i, k): each cell of row i of `after` is the
      same cell of `before` plus valA times the matching cell of row k of b. */
  ghost predicate RowScaledI8(after: seq<Int32>, before: seq<Int32>, b: seq<Int8>, N: int, i: int, k: int, valA: Int8)
    requires 0 <= i < N && 0 <= k < N
    requires Cells(N) <= |after| && Cells(N) <= |before| && Cells(N) <= |b|
  {
    forall c | 0 <= c < N ::
      (IdxInside(N, i, c); IdxInside(N, k, c);
       after[Idx(N, i, c)] as int == before[Idx(N, i, c)] as int + valA as int * b[Idx(N, k, c)] as int)
  }

  /** After k passes of the k loop for row i: each cell of row i of C is the
      same cell of C0 plus the first k products. */
  ghost predicate RowPartialI8(C: seq<Int32>, C0: seq<Int32>, A: seq<Int8>, B: seq<Int8>, N: int, i: int, k: int)
    requires 0 <= i < N && 0 <= k <= N
    requires Cells(N) <= |C| && Cells(N) <= |C0| && Cells(N) <= |A| && Cells(N) <= |B|
  {
    forall c | 0 <= c < N ::
      (IdxInside(N, i, c); C[Idx(N, i, c)] as int == C0[Idx(N, i, c)] as int + DotI8(A, B, N, i, c, k))
  }

  /** A row still holding its starting values fits whenever the whole
      product does not overflow. */
  lemma RowFitsFromNoOverflow(A: seq<Int8>, B: seq<Int8>, N: int, i: int, C0: seq<Int32>, C: seq<Int32>)
    requires 0 <= i < N
    requires Cells(N) <= |A| && Cells(N) <= |B| && Cells(N) <= |C0| && Cells(N) <= |C|
    requires NoOverflow(A, B, C0, N)
    requires SameOutside(C, C0, 0, RowStart(N, i))
    ensures RowFits(C, A, B, N, i)
  {
    forall c, m | 0 <= c < N && 0 <= m <= N
      ensures (IdxInside(N, i, c); INT32_MIN <= C[Idx(N, i, c)] as int + DotI8(A, B, N, i, c, m) <= INT32_MAX)
    {
      IdxInside(N, i, c);
    }
  }

  /** Midway through row i, the next pass of the j loop stays inside int32:
      it produces the partial sums with k + 1 terms. */
  lemma StepFits(A: seq<Int8>, B: seq<Int8>, N: int, i: int, k: int, C0: seq<Int32>, C: seq<Int32>)
    requires 0 <= i < N && 0 <= k < N
    requires Cells(N) <= |A| && Cells(N) <= |B| && Cells(N) <= |C0| && Cells(N) <= |C|
    requires RowFits(C0, A, B, N, i)
    requires RowPartialI8(C, C0, A, B, N, i, k)
    ensures (IdxInside(N, i, k); ScaledRowFits(C, B, N, i, k, A[Idx(N, i, k)]))
  {
    IdxInside(N, i, k);
    forall c | 0 <= c < N
      ensures (IdxInside(N, i, c); IdxInside(N, k, c);
               INT32_MIN <= C[Idx(N, i, c)] as int + A[Idx(N, i, k)] as int * B[Idx(N, k, c)] as int <= INT32_MAX)
    {
      IdxInside(N, i, c);
      IdxInside(N, k, c);
      AccumulateStepI8(A, B, N, i, c, k, C0[Idx(N, i, c)] as int, C[Idx(N, i, c)] as int,
                       A[Idx(N, i, k)] as int, B[Idx(N, k, c)] as int);
    }
  }

  /** One pass of the j loop moves row i from k products to k + 1. */
  lemma RowStepI8(A: seq<Int8>, B: seq<Int8>, N: int, i: int, k: int,
                  C0: seq<Int32>, before: seq<Int32>, after: seq<Int32>)
    requires 0 <= i < N && 0 <= k < N
    requires Cells(N) <= |A| && Cells(N) <= |B| && Cells(N) <= |C0|
    requires Cells(N) <= |before| && Cells(N) <= |after|
    requires RowPartialI8(before, C0, A, B, N, i, k)
    requires (IdxInside(N, i, k); RowScaledI8(after, before, B, N, i, k, A[Idx(N, i, k)]))
    ensures RowPartialI8(after, C0, A, B, N, i, k + 1)
  {
    IdxInside(N, i, k);
    forall c | 0 <= c < N
      ensures (IdxInside(N, i, c); after[Idx(N, i, c)] as int == C0[Idx(N, i, c)] as int + DotI8(A, B, N, i, c, k + 1))
    {
      IdxInside(N, i, c);
      IdxInside(N, k, c);
      AccumulateStepI8(A, B, N, i, c, k, C0[Idx(N, i, c)] as int, before[Idx(N, i, c)] as int,
                       A[Idx(N, i, k)] as int, B[Idx(N, k, c)] as int);
    }
  }

  /** Finishing row i, and touching nothing else, extends the finished rows
      from 0 .. i-1 to 0 .. i; everything from row i + 1 on still holds C0. */
  lemma RowsDoneStepI8(A: seq<Int8>, B: seq<Int8>, N: int, i: int,
                       C0: seq<Int32>, before: seq<Int32>, after: seq<Int32>)
    requires 0 <= i < N
    requires Cells(N) <= |A| && Cells(N) <= |B| && Cells(N) <= |C0|
    requires Cells(N) <= |before| && Cells(N) <= |after|
    requires RowsDoneI8(before, C0, A, B, N, i)
    requires SameOutside(before, C0, 0, RowStart(N, i))
    requires RowPartialI8(after, before, A, B, N, i, N)
    requires SameOutside(after, before, RowStart(N, i), RowStart(N, i) + N)
    ensures RowsDoneI8(after, C0, A, B, N, i + 1)
    ensures SameOutside(after, C0, 0, RowStart(N, i + 1))
  {
    forall r, c | 0 <= r <= i && 0 <= c < N
      ensures (IdxInside(N, r, c); after[Idx(N, r, c)] as int == C0[Idx(N, r, c)] as int + DotI8(A, B, N, r, c, N))
    {
      IdxInside(N, r, c);
      if r < i {
        RowsOrdered(N, r, i);
      }
    }
  }

  /** The innermost loop of matmul_int8 for fixed i and k:
      `C[i*N+j] += val_A * B[k*N+j]` for j = 0 .. N-1, each sum within
      int32. Row i of C gets val_A times row k of B added to it and no other
      cell changes. */
  method AddScaledRowI8(B: array<Int8>, C: array<Int32>, N: int, i: int, k: int, valA: Int8, ghost b: seq<Int8>)
    requires b == B[..]
    requires 0 <= i < N && 0 <= k < N
    requires Cells(N) <= B.Length && Cells(N) <= C.Length
    requires ScaledRowFits(C[..], b, N, i, k, valA)
    modifies C
    ensures RowScaledI8(C[..], old(C[..]), b, N, i, k, valA)
    ensures SameOutside(C[..], old(C[..]), RowStart(N, i), RowStart(N, i) + N)
  {
    RowInside(N, i);
    RowInside(N, k);
    ghost var c0 := C[..];
    var j := 0;
    while j < N
      invariant 0 <= j <= N
      invariant forall c {:trigger C[Idx(N, i, c)]} | 0 <= c < j ::
        C[Idx(N, i, c)] as int == c0[Idx(N, i, c)] as int + valA as int * b[Idx(N, k, c)] as int
      invariant forall p | 0 <= p < C.Length && !(RowStart(N, i) <= p < RowStart(N, i) + j) :: C[p] == c0[p]
    {
      IdxInside(N, i, j);
      IdxInside(N, k, j);
      C[Idx(N, i, j)] := (C[Idx(N, i, j)] as int + valA as int * B[Idx(N, k, j)] as int) as Int32;
      j := j + 1;
    }
  }

  /** The k loop of matmul_int8 for a fixed row i: afterwards each cell of
      row i holds its previous value plus the full integer dot product; no
      cell outside row i changes. */
  method AccumulateRowI8(A: array<Int8>, B: array<Int8>, C: array<Int32>, N: int, i: int,
                         ghost a: seq<Int8>, ghost b: seq<Int8>)
    requires A[..] == a && B[..] == b
    requires 0 <= i < N
    requires Cells(N) <= A.Length && Cells(N) <= B.Length && Cells(N) <= C.Length
    requires RowFits(C[..], a, b, N, i)
    modifies C
    ensures RowPartialI8(C[..], old(C[..]), a, b, N, i, N)
    ensures SameOutside(C[..], old(C[..]), RowStart(N, i), RowStart(N, i) + N)
  {
    ghost var c0 := C[..];
    var k := 0;
    while k < N
      invariant 0 <= k <= N
      invariant A[..] == a && B[..] == b
      invariant RowPartialI8(C[..], c0, a, b, N, i, k)
      invariant SameOutside(C[..], c0, RowStart(N, i), RowStart(N, i) + N)
    {
      IdxInside(N, i, k);
      var valA := A[Idx(N, i, k)];
      ghost var before := C[..];
      StepFits(a, b, N, i, k, c0, before);
      AddScaledRowI8(B, C, N, i, k, valA, b);
      RowStepI8(a, b, N, i, k, c0, before, C[..]);
      k := k + 1;
    }
  }

  /** matmul_int8: when no partial sum leaves int32, every cell (i, j)
      afterwards holds its previous value plus the integer dot product of
      row i of A with column j of B. Cells at or beyond N*N are untouched. */
  method MatmulInt8(A: array<Int8>, B: array<Int8>, C: array<Int32>, N: int)
    requires Cells(N) <= A.Length && Cells(N) <= B.Length && Cells(N) <= C.Length
    requires NoOverflow(A[..], B[..], C[..], N)
    modifies C
    ensures ProductAddedI8(C[..], old(C[..]), A[..], B[..], N)
    ensures forall p | Cells(N) <= p < C.Length :: C[p] == old(C[p])
  {
    ghost var a, b, c0 := A[..], B[..], C[..];
    var i := 0;
    while i < N
      invariant 0 <= i <= LoopCount(N)
      invariant A[..] == a && B[..] == b
      invariant RowsDoneI8(C[..], c0, a, b, N, i)
      invariant SameOutside(C[..], c0, 0, if N > 0 then RowStart(N, i) else 0)
    {
      ghost var before := C[..];
      RowFitsFromNoOverflow(a, b, N, i, c0, before);
      AccumulateRowI8(A, B, C, N, i, a, b);
      RowsDoneStepI8(a, b, N, i, c0, before, C[..]);
      i := i + 1;
    }
    assert forall p | Cells(N) <= p < C.Length :: C[..][p] == c0[p];
  }
}
