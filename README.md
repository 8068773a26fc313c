# BareMetal-ML kernels in Dafny

This project models the native kernel library of BareMetal-ML
(`src/cpp_kernels.cpp`). The library is a set of C functions that the Python
benchmark driver calls over a foreign-function interface. Each kernel works
in place on caller-owned buffers, or writes into a caller-supplied output
buffer. The model covers these kernels:

- `relu_naive` and `relu_avx` (`relu.dfy`). The AVX variant clamps 8 lanes
  per step with `_mm256_max_ps` and finishes with a scalar tail.
- `find_max` and the max-shift of `softmax_naive` (`softmax.dfy`).
- `matmul_naive` (`matmul.dfy`): C += A x B on N x N row-major float
  matrices, with the loops in i-k-j order.
- `quantize_tensor` (`quantize.dfy`): scale, clamp to [-127, 127], then a C
  `(int8_t)` cast.
- `matmul_int8` (`matmul_int8.dfy`): the same i-k-j accumulation on int8
  inputs with an int32 accumulator.
- The driver's quantized step (`pipeline.dfy`): quantize two matrices into
  fresh zeroed buffers, then multiply them into a fresh zeroed int32 buffer.

`clayout.dfy` holds the fixed-width integer types and the row-major layout.
`int8_t` and `int32_t` are the newtypes `Int8` and `Int32`. Every store into
them is therefore a range proof obligation. `float` is modelled as `real`.
The C `int` length parameters stay `int`: a non-positive `n` or `N` means an
empty loop. Cell (r, c) of an N x N matrix is `Idx(N, r, c)`. Lemmas prove it
equals `r * N + c` and lies below `N * N`.

Each kernel is an imperative method over `array`s. Its loops carry
invariants, and its postcondition ties the final buffer to a specification
function of the old buffer: `ReluPrefix`, `QuantizeValue`, `Dot` or `DotI8`.
The lemmas then state what the source promises about those functions.

`quantize_tensor` converts with `(int8_t)(val)`, which truncates toward zero
rather than rounding: 0.5 at scale 127 becomes 63, not 64. The
dequantization error is therefore below one step (1/scale), not half a
step.

## Model

| member | source | states |
|---|---|---|
| `CLayout.RowStartIsProduct` | src/cpp_kernels.cpp:73-75 | the row offset used by the model is the source's `i * N` |
| `CLayout.CellsIsSquare` | src/cpp_kernels.cpp:70-79 | an N x N matrix occupies exactly N * N cells when N > 0 |
| `CLayout.IdxInside` | src/cpp_kernels.cpp:73-75 | for i, k, j in 0 .. N-1 the indices `i*N+k`, `k*N+j`, `i*N+j` stay below N * N |
| `Relu.ReluPrefixAt` | src/cpp_kernels.cpp:12-16 | after ReLU every element below n is non-negative, negatives became 0, non-negatives and elements at n or beyond are unchanged |
| `Relu.ReluIdempotent` | src/cpp_kernels.cpp:12-16 | applying ReLU to the first n elements twice gives the same buffer as once |
| `Relu.ReluExample` | src/cpp_kernels.cpp:12-16 | `[-1, 0, 1]` becomes `[0, 0, 1]` |
| `Relu.ReluNaive` | src/cpp_kernels.cpp:12-16 | the buffer afterwards is ReLU of the old buffer on indices below n and unchanged elsewhere |
| `Relu.MaxPsIsRelu` | src/cpp_kernels.cpp:26 | one lane of `_mm256_max_ps(x, 0)` equals the scalar step `x < 0 ? 0 : x` |
| `Relu.MaxLanes` | src/cpp_kernels.cpp:25-27 | one load/max/store applies ReLU to data[i .. i+7] and changes nothing else |
| `Relu.ReluAvx` | src/cpp_kernels.cpp:19-34 | the chunk loop plus the tail leave the same buffer as ReLU on indices below n; every index below n is processed exactly once, none at or beyond n, for every n including n < 8 and n not a multiple of 8 |
| `Relu.VariantsAgree` | src/cpp_kernels.cpp:12-34 | run on two equal buffers, relu_naive and relu_avx leave equal buffers |
| `Softmax.FindMax` | src/cpp_kernels.cpp:40-46 | the result is data[0] or some data[k] with 1 <= k < n, and it is at least every data[k] with k < n |
| `Softmax.ExponentArguments` | src/cpp_kernels.cpp:49-55 | each exponent argument `input[i] - max_val` is at most 0, and for n >= 1 one of them is exactly 0 |
| `Matmul.AccumulateStep` | src/cpp_kernels.cpp:75 | one `+= val_A * B[k*N+j]` extends a cell's partial dot product by the k-th term |
| `Matmul.DotIdentity` | src/cpp_kernels.cpp:70-79 | with B the identity matrix, the dot product of row i with column j is A[i][j], so the product adds A to C |
| `Matmul.RowStep` | src/cpp_kernels.cpp:74-76 | one pass of the j loop moves every cell of row i from k to k + 1 terms of its dot product |
| `Matmul.RowsDoneStep` | src/cpp_kernels.cpp:71-78 | finishing row i, and touching nothing else, extends the finished rows to 0 .. i and leaves the later rows as they started |
| `Matmul.AddScaledRow` | src/cpp_kernels.cpp:74-76 | the j loop adds val_A times row k of B to row i of C and changes no other cell |
| `Matmul.AccumulateRow` | src/cpp_kernels.cpp:72-77 | the k loop adds the full dot products to row i of C and changes no other cell |
| `Matmul.MatmulNaive` | src/cpp_kernels.cpp:70-79 | every cell (i, j) ends as its old value plus the dot product of row i of A and column j of B (C is accumulated into, not cleared); cells at or beyond N * N are unchanged |
| `Quantize.Clamp` | src/cpp_kernels.cpp:106-107 | the clamped value lies in [-127, 127], equals its input inside that range and saturates outside it |
| `Quantize.TruncateToInt` | src/cpp_kernels.cpp:108 | the cast keeps the integer part: for x >= 0 the result r has r <= x < r + 1, for x < 0 it has r - 1 < x <= r |
| `Quantize.QuantizeValue` | src/cpp_kernels.cpp:105-108 | every code is in [-127, 127], so -128 is never produced and the int8 cast is always in range |
| `Quantize.TruncateMonotone` | src/cpp_kernels.cpp:108 | truncation toward zero preserves order |
| `Quantize.ClampMonotone` | src/cpp_kernels.cpp:106-107 | clamping preserves order |
| `Quantize.QuantizeMonotone` | src/cpp_kernels.cpp:105-108 | for scale > 0, x <= y implies code(x) <= code(y) |
| `Quantize.QuantizeInRange` | src/cpp_kernels.cpp:105-108 | without clipping, the code lies between 0 and x * scale and less than 1 away from it |
| `Quantize.DequantizeError` | src/cpp_kernels.cpp:105-108 | without clipping and with scale > 0, code / scale is within 1/scale of x |
| `Quantize.QuantizeSaturates` | src/cpp_kernels.cpp:106-107 | x * scale >= 127 gives 127 and x * scale <= -127 gives -127 |
| `Quantize.QuantizeExamples` | src/cpp_kernels.cpp:103-110 | at scale 127: 1.0 -> 127, -1.0 -> -127, 0.5 -> 63, -0.5 -> -63, 2.0 -> 127 |
| `Quantize.QuantizeTensor` | src/cpp_kernels.cpp:103-110 | output[i] is the code of input[i] for every i below n; the rest of the output buffer is unchanged |
| `Int8Matmul.MagnitudeProductBound` | src/cpp_kernels.cpp:117 | two magnitudes of at most 127 multiply to at most 16129 |
| `Int8Matmul.ProductBound` | src/cpp_kernels.cpp:117 | `val_A * B[k*N+j]` with both operands in [-127, 127] has magnitude at most 16129 |
| `Int8Matmul.DotI8Bound` | src/cpp_kernels.cpp:113-120 | with symmetric int8 inputs, the first m products of a row and a column sum to at most 16129 * m in magnitude |
| `Int8Matmul.QuantizedInputsNoOverflow` | src/cpp_kernels.cpp:112-121 | with symmetric inputs, a zero accumulator and 16129 * N <= 2^31 - 1, no value stored into C leaves int32 |
| `Int8Matmul.ResultBound` | src/cpp_kernels.cpp:112-121 | starting from zero with symmetric inputs, every result cell has magnitude at most 16129 * N |
| `Int8Matmul.AccumulateStepI8` | src/cpp_kernels.cpp:117 | one `+= val_A * B[k*N+j]` extends a cell's integer partial dot product by the k-th product |
| `Int8Matmul.RowFitsFromNoOverflow` | src/cpp_kernels.cpp:113-120 | a row that still holds its starting values inherits the no-overflow guarantee for all its partial sums |
| `Int8Matmul.StepFits` | src/cpp_kernels.cpp:116-118 | midway through row i, every store of the next j loop stays inside int32 |
| `Int8Matmul.RowStepI8` | src/cpp_kernels.cpp:116-118 | one pass of the j loop moves every cell of row i from k to k + 1 products |
| `Int8Matmul.RowsDoneStepI8` | src/cpp_kernels.cpp:113-120 | finishing row i, and touching nothing else, extends the finished rows to 0 .. i |
| `Int8Matmul.AddScaledRowI8` | src/cpp_kernels.cpp:116-118 | the j loop adds val_A times row k of B to row i of C, each store within int32, and changes no other cell |
| `Int8Matmul.AccumulateRowI8` | src/cpp_kernels.cpp:114-119 | the k loop adds the full integer dot products to row i of C and changes no other cell |
| `Int8Matmul.MatmulInt8` | src/cpp_kernels.cpp:112-121 | when no partial sum leaves int32, every cell (i, j) ends as its old value plus the integer dot product; cells at or beyond N * N are unchanged |
| `Pipeline.QuantizedMatmul` | src/main.py:132-142 | quantizing two matrices into zeroed buffers and multiplying them into a zeroed int32 buffer never overflows when 16129 * N fits int32; each result cell is the exact integer dot product of the codes and lies within 16129 * N of zero |

## Left out

- `softmax_naive` past the max-shift is not modelled: the `std::exp` calls, their sum and the normalising division. Transcendental functions have no exact counterpart over the reals here. `ExponentArguments` covers the part that keeps the exponentials at most 1 and the sum at least 1.
- `gelu_naive` is not modelled, because it is built on `tanh`.
- IEEE-754 behaviour is not modelled. Floats are reals, so sums and products in `matmul_naive` and `quantize_tensor` are exact. NaN, infinities, -0.0 and the NaN operand rule of `_mm256_max_ps` are not covered.
- Overflow of the C `int` index arithmetic is not modelled: `i * N + j` for huge N and `n - 8` for n near INT_MIN. Indices and lengths are unbounded integers.
- Matmul.MatmulNaive: requires C to be a different buffer from A and B. The C code accepts overlapping arguments; what it computes for them is not modelled.
- Int8Matmul.MatmulInt8: requires every partial sum to fit int32, because a signed overflow in the store is undefined in C. The wrap-around a typical compiler would produce is not modelled.
- Softmax.FindMax: requires the buffer to hold at least one element, because `data[0]` is read even when n <= 0.
- The benchmark driver's timing, printing, pure-Python baselines and CSV export in `src/main.py` are not modelled, and neither is the plotting in `src/plot_results.py`. They are I/O around the kernels.
- The foreign-function loading of the shared library is not modelled. The Dafny methods are called directly.
