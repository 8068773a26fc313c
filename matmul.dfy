/** matmul_naive of src/cpp_kernels.cpp: C += A x B for N x N row-major
    matrices in flat buffers, with the loops ordered i, k, j so that the
    innermost loop walks a row of B and a row of C. float32 is modelled as
    real, so the accumulated value is an exact sum. */
module Matmul {
  import opened CLayout

  /** The first m terms of the dot product of row i of A with column j of B:
      A[i*N+0]*B[0*N+j] + ... + A[i*N+m-1]*B[(m-1)*N+j]. */
  function Dot(A: seq<real>, B: seq<real>, N: int, i: int, j: int, m: int): real
    requires 0 <= i < N && 0 <= j < N && 0 <= m <= N
    requires Cells(N) <= |A| && Cells(N) <= |B|
    decreases m
  {
    if m == 0 then 0.0
    else
      IdxInside(N, i, m - 1);
      IdxInside(N, m - 1, j);
      Dot(A, B, N, i, j, m - 1) + A[Idx(N, i, m - 1)] * B[Idx(N, m - 1, j)]
  }

  /** The update `C[i*N+j] += val_A * B[k*N+j]` turns a cell holding
      start + Dot(..., k) into one holding start + Dot(..., k + 1). */
  lemma AccumulateStep(A: seq<real>, B: seq<real>, N: int, i: int, j: int, k: int,
                       start: real, cell: real, valA: real, valB: real)
    requires 0 <= i < N && 0 <= j < N && 0 <= k < N
    requires Cells(N) <= |A| && Cells(N) <= |B|
    requires (IdxInside(N, i, k); valA == A[Idx(N, i, k)])
    requires (IdxInside(N, k, j); valB == B[Idx(N, k, j)])
    requires cell == start + Dot(A, B, N, i, j, k)
    ensures cell + valA * valB == start + Dot(A, B, N, i, j, k + 1)
  {
  }

  /** B holds the N x N identity matrix in its first N*N cells. */
  ghost predicate IsIdentity(B: seq<real>, N: int)
    requires Cells(N) <= |B|
  {
    forall r, c | 0 <= r < N && 0 <= c < N ::
      (IdxInside(N, r, c); B[Idx(N, r, c)] == if r == c then 1.0 else 0.0)
  }

  /** With B the identity matrix, the dot product of row i with column j
      picks out A[i][j] once the sum has passed index j; for m == N this is
      A x I == A. */
  lemma {:induction false} DotIdentity(A: seq<real>, B: seq<real>, N: int, i: int, j: int, m: int)
    requires 0 <= i < N && 0 <= j < N && 0 <= m <= N
    requires Cells(N) <= |A| && Cells(N) <= |B|
    requires IsIdentity(B, N)
    ensures (IdxInside(N, i, j); Dot(A, B, N, i, j, m) == if j < m then A[Idx(N, i, j)] else 0.0)
  {
    IdxInside(N, i, j);
    if m > 0 {
      DotIdentity(A, B, N, i, j, m - 1);
      IdxInside(N, i, m - 1);
      IdxInside(N, m - 1, j);
      var b := B[Idx(N, m - 1, j)];
      assert b == if m - 1 == j then 1.0 else 0.0;
      if m - 1 == j {
        assert A[Idx(N, i, m - 1)] * b == A[Idx(N, i, j)];
      } else {
        assert A[Idx(N, i, m - 1)] * b == 0.0;
      }
    }
  }
  /** After the j loop for (i, k): each cell of row i of `after` is the
      same cell of `before` plus valA times the matching cell of row k of b. */
  ghost predicate RowScaled(after: seq<real>, before: seq<real>, b: seq<real>, N: int, i: int, k: int, valA: real)
    requires 0 <= i < N && 0 <= k < N
    requires Cells(N) <= |after| && Cells(N) <= |before| && Cells(N) <= |b|
  {
    forall c | 0 <= c < N ::
      (IdxInside(N, i, c); IdxInside(N, k, c);
       after[Idx(N, i, c)] == before[Idx(N, i, c)] + valA * b[Idx(N, k, c)])
  }

  /** After k passes of the k loop for row i: each cell of row i of C is the
      same cell of C0 plus the first k terms of its dot product. */
  ghost predicate RowPartial(C: seq<real>, C0: seq<real>, A: seq<real>, B: seq<real>, N: int, i: int, k: int)
    requires 0 <= i < N && 0 <= k <= N
    requires Cells(N) <= |C| && Cells(N) <= |C0| && Cells(N) <= |A| && Cells(N) <= |B|
  {
    forall c | 0 <= c < N ::
      (IdxInside(N, i, c); C[Idx(N, i, c)] == C0[Idx(N, i, c)] + Dot(A, B, N, i, c, k))
  }

  /** Rows 0 .. n-1 of C hold the same rows of C0 plus the full product. */
  ghost predicate RowsDone(C: seq<real>, C0: seq<real>, A: seq<real>, B: seq<real>, N: int, n: int)
    requires 0 <= n <= LoopCount(N)
    requires Cells(N) <= |C| && Cells(N) <= |C0| && Cells(N) <= |A| && Cells(N) <= |B|
  {
    forall r, c | 0 <= r < n && 0 <= c < N ::
      (IdxInside(N, r, c); C[Idx(N, r, c)] == C0[Idx(N, r, c)] + Dot(A, B, N, r, c, N))
  }

  /** Every cell (i, j) of C holds the same cell of C0 plus the dot product
      of row i of A with column j of B. */
  ghost predicate ProductAdded(C: seq<real>, C0: seq<real>, A: seq<real>, B: seq<real>, N: int)
    requires Cells(N) <= |C| && Cells(N) <= |C0| && Cells(N) <= |A| && Cells(N) <= |B|
  {
    RowsDone(C, C0, A, B, N, LoopCount(N))
  }

  /** One pass of the j loop moves row i from k terms of the dot products to
      k + 1 terms. */
  lemma RowStep(A: seq<real>, B: seq<real>, N: int, i: int, k: int,
                C0: seq<real>, before: seq<real>, after: seq<real>)
    requires 0 <= i < N && 0 <= k < N
    requires Cells(N) <= |A| && Cells(N) <= |B| && Cells(N) <= |C0|
    requires Cells(N) <= |before| && Cells(N) <= |after|
    requires RowPartial(before, C0, A, B, N, i, k)
    requires (IdxInside(N, i, k); RowScaled(after, before, B, N, i, k, A[Idx(N, i, k)]))
    ensures RowPartial(after, C0, A, B, N, i, k + 1)
  {
    IdxInside(N, i, k);
    forall c | 0 <= c < N
      ensures (IdxInside(N, i, c); after[Idx(N, i, c)] == C0[Idx(N, i, c)] + Dot(A, B, N, i, c, k + 1))
    {
      IdxInside(N, i, c);
      IdxInside(N, k, c);
      AccumulateStep(A, B, N, i, c, k, C0[Idx(N, i, c)], before[Idx(N, i, c)], A[Idx(N, i, k)], B[Idx(N, k, c)]);
    }
  }

  /** Finishing row i, and touching nothing else, extends the finished rows
      from 0 .. i-1 to 0 .. i; everything from row i + 1 on still holds C0. */
  lemma RowsDoneStep(A: seq<real>, B: seq<real>, N: int, i: int,
                     C0: seq<real>, before: seq<real>, after: seq<real>)
    requires 0 <= i < N
    requires Cells(N) <= |A| && Cells(N) <= |B| && Cells(N) <= |C0|
    requires Cells(N) <= |before| && Cells(N) <= |after|
    requires RowsDone(before, C0, A, B, N, i)
    requires SameOutside(before, C0, 0, RowStart(N, i))
    requires RowPartial(after, before, A, B, N, i, N)
    requires SameOutside(after, before, RowStart(N, i), RowStart(N, i) + N)
    ensures RowsDone(after, C0, A, B, N, i + 1)
    ensures SameOutside(after, C0, 0, RowStart(N, i + 1))
  {
    forall r, c | 0 <= r <= i && 0 <= c < N
      ensures (IdxInside(N, r, c); after[Idx(N, r, c)] == C0[Idx(N, r, c)] + Dot(A, B, N, r, c, N))
    {
      IdxInside(N, r, c);
      if r < i {
        RowsOrdered(N, r, i);
      }
    }
  }

  /** The innermost loop of matmul_naive for fixed i and k:
      `C[i*N+j] += val_A * B[k*N+j]` for j = 0 .. N-1. Row i of C gets val_A
      times row k of B added to it and no other cell changes. */
  method AddScaledRow(B: array<real>, C: array<real>, N: int, i: int, k: int, valA: real, ghost b: seq<real>)
    requires C != B && b == B[..]
    requires 0 <= i < N && 0 <= k < N
    requires Cells(N) <= B.Length && Cells(N) <= C.Length
    modifies C
    ensures RowScaled(C[..], old(C[..]), b, N, i, k, valA)
    ensures SameOutside(C[..], old(C[..]), RowStart(N, i), RowStart(N, i) + N)
  {
    RowInside(N, i);
    RowInside(N, k);
    ghost var c0 := C[..];
    var j := 0;
    while j < N
      invariant 0 <= j <= N
      invariant forall c {:trigger C[Idx(N, i, c)]} | 0 <= c < j ::
        C[Idx(N, i, c)] == c0[Idx(N, i, c)] + valA * b[Idx(N, k, c)]
      invariant forall p | 0 <= p < C.Length && !(RowStart(N, i) <= p < RowStart(N, i) + j) :: C[p] == c0[p]
    {
      C[Idx(N, i, j)] := C[Idx(N, i, j)] + valA * B[Idx(N, k, j)];
      j := j + 1;
    }
  }

  /** The k loop of matmul_naive for a fixed row i: afterwards each cell of
      row i holds its previous value plus the full dot product of row i of A
      with its column of B; no cell outside row i changes. */
  method AccumulateRow(A: array<real>, B: array<real>, C: array<real>, N: int, i: int,
                       ghost a: seq<real>, ghost b: seq<real>)
    requires C != A && C != B && A[..] == a && B[..] == b
    requires 0 <= i < N
    requires Cells(N) <= A.Length && Cells(N) <= B.Length && Cells(N) <= C.Length
    modifies C
    ensures RowPartial(C[..], old(C[..]), a, b, N, i, N)
    ensures SameOutside(C[..], old(C[..]), RowStart(N, i), RowStart(N, i) + N)
  {
    ghost var c0 := C[..];
    var k := 0;
    while k < N
      invariant 0 <= k <= N
      invariant A[..] == a && B[..] == b
      invariant RowPartial(C[..], c0, a, b, N, i, k)
      invariant SameOutside(C[..], c0, RowStart(N, i), RowStart(N, i) + N)
    {
      IdxInside(N, i, k);
      var valA := A[Idx(N, i, k)];
      ghost var before := C[..];
      AddScaledRow(B, C, N, i, k, valA, b);
      RowStep(a, b, N, i, k, c0, before, C[..]);
      k := k + 1;
    }
  }

  /** matmul_naive: afterwards every cell (i, j) holds its previous value
      plus the dot product of row i of A with column j of B; C is never
      cleared first. Cells at or beyond N*N are untouched. */
  method MatmulNaive(A: array<real>, B: array<real>, C: array<real>, N: int)
    requires C != A && C != B
    requires Cells(N) <= A.Length && Cells(N) <= B.Length && Cells(N) <= C.Length
    modifies C
    ensures ProductAdded(C[..], old(C[..]), A[..], B[..], N)
    ensures forall p | Cells(N) <= p < C.Length :: C[p] == old(C[p])
  {
    ghost var a, b, c0 := A[..], B[..], C[..];
    var i := 0;
    while i < N
      invariant 0 <= i <= LoopCount(N)
      invariant A[..] == a && B[..] == b
      invariant RowsDone(C[..], c0, a, b, N, i)
      invariant SameOutside(C[..], c0, 0, if N > 0 then RowStart(N, i) else 0)
    {
      ghost var before := C[..];
      AccumulateRow(A, B, C, N, i, a, b);
      RowsDoneStep(a, b, N, i, c0, before, C[..]);
      i := i + 1;
    }
    assert forall p | Cells(N) <= p < C.Length :: C[..][p] == c0[p];
  }
}
