/** The C integer types the kernels store into, and the row-major layout of
    an N x N matrix held in a flat buffer (index(i, j) = i * N + j). */
module CLayout {

  /** `int8_t`: the element type of a quantized tensor. */
  newtype Int8 = x: int | -0x80 <= x < 0x80

  /** `int32_t`: the accumulator type of the quantized matrix product. */
  newtype Int32 = x: int | -0x8000_0000 <= x < 0x8000_0000

  const INT32_MAX: int := 0x7fff_ffff
  const INT32_MIN: int := -0x8000_0000

  /** A C length clamped at zero: how many indices a loop
      `for (int i = 0; i < n; i++)` visits. */
  function LoopCount(n: int): nat
  {
    if n < 0 then 0 else n
  }

  /** Offset of row r in a row-major matrix with N columns, built up one row
      at a time; RowStartIsProduct shows it is r * N. Keeping the product out
      of sight keeps the loop proofs in linear arithmetic. */
  function RowStart(N: nat, r: nat): nat
  {
    if r == 0 then 0 else RowStart(N, r - 1) + N
  }

  /** Row-major position of cell (r, c): `r * N + c`. */
  function Idx(N: nat, r: nat, c: nat): nat
  {
    RowStart(N, r) + c
  }

  /** Number of cells an N x N matrix occupies; a non-positive N (the C
      parameter is a plain `int`) makes every loop over it empty. */
  function Cells(N: int): nat
  {
    if N > 0 then RowStart(N, N) else 0
  }

  lemma {:induction false} RowStartIsProduct(N: nat, r: nat)
    ensures RowStart(N, r) == r * N
  {
    if r > 0 {
      RowStartIsProduct(N, r - 1);
      assert r * N == (r - 1) * N + N;
    }
  }

  /** Cells(N) is N * N for every positive N. */
  lemma CellsIsSquare(N: int)
    requires N > 0
    ensures Cells(N) == N * N
  {
    RowStartIsProduct(N, N);
  }

  /** An earlier row ends no later than a later row starts. */
  lemma {:induction false} RowsOrdered(N: nat, r: nat, i: nat)
    requires r < i
    ensures RowStart(N, r) + N <= RowStart(N, i)
  {
    if r + 1 < i {
      RowsOrdered(N, r, i - 1);
    }
  }

  /** Row r of an N x N matrix lies inside the buffer. */
  lemma RowInside(N: int, r: int)
    requires 0 <= r < N
    ensures RowStart(N, r) + N <= Cells(N)
  {
    if r + 1 < N {
      RowsOrdered(N, r + 1, N);
    }
  }

  /** Cell (r, c) lies inside the N*N buffer. */
  lemma IdxInside(N: int, r: int, c: int)
    requires 0 <= r < N && 0 <= c < N
    ensures Idx(N, r, c) < Cells(N)
  {
    RowInside(N, r);
  }

  /** `after` agrees with `before` everywhere except possibly at positions
      lo .. hi-1: what a kernel that writes only that window leaves behind. */
  ghost predicate SameOutside<T>(after: seq<T>, before: seq<T>, lo: int, hi: int)
  {
    |after| == |before| &&
    forall p | 0 <= p < |after| && !(lo <= p < hi) :: after[p] == before[p]
  }
}
