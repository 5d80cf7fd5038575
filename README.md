# Serial GEMV unit test, integer instantiation

This project models the unit test of the serial GEMV kernel in Kokkos Kernels,
`impl_test_serial_gemv` in `unit_test/blas/Test_Blas2_serial_gemv.hpp`. GEMV is the
Level 2 BLAS operation `y := alpha*op(A)*x + beta*y`. The test does the following:

- It validates the mode letter (`'N'`, `'T'` or `'C'`).
- It allocates `A` with a shape chosen by the raw letter before it is validated:
  `N x M` for 'N' and `M x N` for every other letter.
- It takes `x` and `y` as column 0 of two-column blocks, so they may have a non-unit
  stride.
- It computes a reference aggregate `expected_result = sum_i (b*y[i] + a*y_i)^2` with
  a nested loop, where `y_i = sum_j op(A)[i,j]*x[j]`, `a = 3` and `b = 5`.
- It calls the kernel three times: with mutable `A` and `x`, with read-only `x`, and
  with read-only `A` and `x`. Before the second and third calls it restores `y` from a
  snapshot. After each call it compares `dot(y, y)` with `expected_result`.

Scalars are the `int` instantiation, modelled as unbounded integers. The test compares
each `dot(y, y)` with `expected_result` within `eps * expected_result`, where `eps = 1e-7`
for `int`. The model proves the stronger exact equality. One exception is
`Int32Aggregate`, which models 32-bit accumulation (see Findings).

Modules:

- `Results` holds the `Ok`/`Err` result type.
- `TransposeMode` covers the mode letters, the shape of `A` and the entry `op(A)[i,j]`.
- `StridedView` covers the `n x 2` blocks, their row-major or column-major layout,
  and the column-0 vector view.
- `GemvSpec` defines the row sums, the GEMV update, the aggregate, `dot` and the lemmas
  that connect them.
- `SerialGemv` has the kernel as an in-place method on `y`'s block, the oracle's nested
  loop, the snapshot/restore, and the test body.
- `Int32Aggregate` models `expected_result` accumulated in a 32-bit `int`.

## Model

| member | source | states |
|---|---|---|
| `TransposeMode.ParseMode` | unit_test/blas/Test_Blas2_serial_gemv.hpp:81-83 | a mode letter is accepted exactly when it is 'N', 'T' or 'C'; an accepted letter names its mode, any other letter gives the "incorrect matrix mode letter" error |
| `TransposeMode.ParseLetter` | unit_test/blas/Test_Blas2_serial_gemv.hpp:81-83 | parsing each mode's own letter gives that mode back |
| `TransposeMode.FirstLetter` | unit_test/blas/Test_Blas2_serial_gemv.hpp:44-45 | `mode[0]` of the mode string; an accepted letter is always the string's first character, so an empty string is never accepted |
| `TransposeMode.ShapeOfA` | unit_test/blas/Test_Blas2_serial_gemv.hpp:44-45 | the shape `(Nt, Mt)` is `(N, M)` or `(M, N)`, and it is `(N, M)` exactly when the letter is 'N' or the matrix is square |
| `TransposeMode.Entry` | unit_test/blas/Test_Blas2_serial_gemv.hpp:88-90 | `op(A)[i,j]` is `A(i,j)` under 'N'; under 'T' and 'C' it is `A(j,i)`, since `conj` is the identity on integers |
| `TransposeMode.SelectEntry` | unit_test/blas/Test_Blas2_serial_gemv.hpp:88-90 | the oracle's nested conditional on the raw letter ('C', then 'T', otherwise `A(i,j)`) reads, for every accepted letter, exactly the entry `op(A)[i,j]` of the letter's mode |
| `TransposeMode.ShapeFollowsMode` | unit_test/blas/Test_Blas2_serial_gemv.hpp:44-48 | once the letter is accepted, `A` allocated `Nt x Mt` (`N x M` for 'N', `M x N` otherwise) is shaped for the mode, and every oracle access `A(i,j)` or `A(j,i)` with `i < N`, `j < M` is in bounds |
| `TransposeMode.TransposedEntries` | unit_test/blas/Test_Blas2_serial_gemv.hpp:84-90 | for integers `conj(A(j,i)) = A(j,i)`, so 'C' and 'T' read the same entry, and that entry is `A^T(i,j)` of the separately built transpose |
| `StridedView.BlockLayoutFor` | unit_test/blas/Test_Blas2_serial_gemv.hpp:22-35 | the block is `LayoutRight` exactly when the vector type is `LayoutStride`, and `LayoutLeft` otherwise |
| `StridedView.ColumnZeroAddressing` | unit_test/blas/Test_Blas2_serial_gemv.hpp:22-35 | the block is row-major for a `LayoutStride` vector and column-major otherwise, so logical element `i` of column 0 sits at offset `2*i` or `i`, and every element lies inside the block |
| `StridedView.Offset` | unit_test/blas/Test_Blas2_serial_gemv.hpp:22-35 | element `(i, c)` of an `n x 2` block lies inside its `2n` slots; row-major puts column `c` at slots of parity `c`, column-major puts column 0 in the first `n` slots and column 1 in the last `n` |
| `StridedView.Column` | unit_test/blas/Test_Blas2_serial_gemv.hpp:52-53 | one column of an `n x 2` block, read through `Offset`, has exactly `n` elements |
| `StridedView.ColumnView.Elements` | unit_test/blas/Test_Blas2_serial_gemv.hpp:52-53 | the vector a column-0 subview shows has the view's length |
| `StridedView.ColumnView.Spare` | unit_test/blas/Test_Blas2_serial_gemv.hpp:22-35 | column 1 of the block, which the subview never shows, has the view's length |
| `StridedView.OffsetInjective` | unit_test/blas/Test_Blas2_serial_gemv.hpp:22-35 | in both layouts distinct block elements `(i, c)` occupy distinct storage slots |
| `StridedView.ColumnWrite` | unit_test/blas/Test_Blas2_serial_gemv.hpp:52-53 | writing element `i` through the column-0 view changes exactly that element of the vector and never changes column 1 of the block |
| `StridedView.ColumnView.ElementAt` | unit_test/blas/Test_Blas2_serial_gemv.hpp:91-93 | reading `h_x(j)` or `h_y(i)` through the column-0 subview reads logical element `j` (or `i`) of the vector from its storage slot in the block |
| `GemvSpec.RowSum` | unit_test/blas/Test_Blas2_serial_gemv.hpp:86-91 | the row sum `y_i = sum_{j<k} op(A)[i,j]*x[j]` is 0 whenever the first `k` entries of `x` are 0 |
| `GemvSpec.ExpectedResult` | unit_test/blas/Test_Blas2_serial_gemv.hpp:80-93 | `expected_result` after `k` rows, `sum_{i<k} (b*y[i] + a*y_i)^2` starting from 0, is never negative |
| `GemvSpec.AddRow` | unit_test/blas/Test_Blas2_serial_gemv.hpp:93 | adding the square `(b*h_y(i) + a*y_i)^2` of row `i`, for the row's `y[i]` and completed row sum `y_i`, turns `expected_result` after `i` rows into `expected_result` after `i + 1` rows |
| `GemvSpec.Dot` | unit_test/blas/Test_Blas2_serial_gemv.hpp:100 | `KokkosBlas::dot` on integers, `sum_i u[i]*v[i]`; `dot(y, y)` is never negative |
| `GemvSpec.ExpectedIsDotPrefix` | unit_test/blas/Test_Blas2_serial_gemv.hpp:85-94 | after `k` outer iterations `expected_result` is the squared norm of the first `k` entries of `b*y + a*op(A)*x` |
| `GemvSpec.ExpectedIsDot` | unit_test/blas/Test_Blas2_serial_gemv.hpp:93-101 | the oracle's final `expected_result` equals `dot(y, y)` of the updated `y`, exactly, and is non-negative |
| `GemvSpec.DegenerateShapes` | unit_test/blas/Test_Blas2_serial_gemv.hpp:85-93 | with `N = 0` the update leaves `y` as it is and the aggregate stays 0; with `M = 0` the update is `y := b*y` |
| `GemvSpec.RowSumSameEntries` | unit_test/blas/Test_Blas2_serial_gemv.hpp:86-91 | two row sums over the same `x` that read equal entries `op(A)[i,j]` are equal |
| `GemvSpec.TransposeModesAgree` | unit_test/blas/Test_Blas2_serial_gemv.hpp:84-91 | for integers 'T' and 'C' give the same update and the same aggregate, and 'T' gives the 'N' update of the transposed matrix |
| `SerialGemv.Gemv` | unit_test/blas/Test_Blas2_serial_gemv.hpp:98 | the kernel updates every element `i` of `y`'s column 0 to `b*y_orig[i] + a*sum_j op(A)[i,j]*x[j]`, leaves column 1 of `y`'s block unchanged, and modifies nothing but `y`'s block |
| `SerialGemv.Oracle` | unit_test/blas/Test_Blas2_serial_gemv.hpp:80-94 | the outer loop returns `sum_{i<N} (b*y[i] + a*y_i)^2` over the logical (strided) vectors, its invariant being the aggregate of the rows done so far; it also establishes that `A`, allocated by the letter's shape, is shaped for the mode |
| `SerialGemv.OracleRow` | unit_test/blas/Test_Blas2_serial_gemv.hpp:86-92 | the inner loop, which picks `op(A)[i,j]` by branching on the letter, returns `y_i = sum_{j<M} op(A)[i,j]*x[j]` over the logical (strided) `x`; its invariant is the prefix row sum |
| `SerialGemv.DeepCopy` | unit_test/blas/Test_Blas2_serial_gemv.hpp:74 | after the copy, the destination block holds exactly the source block's contents |
| `SerialGemv.RunGemv` | unit_test/blas/Test_Blas2_serial_gemv.hpp:98-100 | one kernel call followed by `dot(y, y)`: the recorded vector is the GEMV update of `y` as it was before the call, and column 1 is unchanged |
| `SerialGemv.ImplTestSerialGemv` | unit_test/blas/Test_Blas2_serial_gemv.hpp:16-117 | fails with the mode error exactly when the letter is not 'N', 'T' or 'C', and on a bad letter the `Err` result carries no aggregate and no run; otherwise `expected_result` is the aggregate, and each of the three variants starts from the restored `y`, leaves the same GEMV update in column 0, leaves column 1 as filled, and has `dot(y, y)` equal to `expected_result` |
| `Int32Aggregate.Wrap` | unit_test/blas/Test_Blas2_serial_gemv.hpp:93 | a 32-bit two's-complement result lies in `[INT_MIN, INT_MAX]` and is congruent to the exact value modulo `2^32` |
| `Int32Aggregate.WrapSum` | unit_test/blas/Test_Blas2_serial_gemv.hpp:93 | a wrapped sum of wrapped summands is the wrapped exact sum |
| `Int32Aggregate.ExpectedResultInt32` | unit_test/blas/Test_Blas2_serial_gemv.hpp:93 | `expected_result` accumulated as written for `int` (each square and each `+=` wrapped to 32 bits) always lies in `[INT_MIN, INT_MAX]` |
| `Int32Aggregate.Int32IsWrappedExact` | unit_test/blas/Test_Blas2_serial_gemv.hpp:93 | `expected_result` accumulated in 32 bits is the exact aggregate reduced modulo `2^32` |
| `Int32Aggregate.RowSumBound` | unit_test/blas/Test_Blas2_serial_gemv.hpp:86-91 | with operands in `[0, 10)`, the row sum `y_i` after `k` terms lies in `[0, 81k]` |
| `Int32Aggregate.EntryBelowTen` | unit_test/blas/Test_Blas2_serial_gemv.hpp:88-90 | with `A` filled in `[0, 10)`, every `op(A)[i,j]` the oracle reads lies in `[0, 10)` |
| `Int32Aggregate.RowTermInRange` | unit_test/blas/Test_Blas2_serial_gemv.hpp:93 | with operands in `[0, 10)` and at most 1024 columns, the row term `b*y[i] + a*y_i` lies in `[0, 248877]`, inside 32-bit range |
| `Int32Aggregate.NinesRowSum` | unit_test/blas/Test_Blas2_serial_gemv.hpp:86-91 | when every entry is 9, every row sum over `k` columns is `81k` |
| `Int32Aggregate.NinesAggregate` | unit_test/blas/Test_Blas2_serial_gemv.hpp:85-94 | when every entry is 9 and `M = 1024`, each row adds `248877^2 = 61939761129` to `expected_result`, so after `k` rows it is `k * 61939761129` |
| `Int32Aggregate.Int32Overflows` | unit_test/blas/Test_Blas2_serial_gemv.hpp:93 | in the tested shape `(13, 1024)` with every entry 9, row 0 alone brings the exact aggregate to 61939761129, above `INT_MAX`, where the 32-bit accumulation gives 1810218985; the exact aggregate over all 13 rows is 805216894677 |

## Left out

- Random filling with `Random_XorShift64_Pool` and seed 13718 (lines 67-72) is not modelled. The contents of `A` and of the `x` and `y` blocks are arbitrary inputs of `ImplTestSerialGemv`.
- Host/device mirrors and the `deep_copy` calls between memory spaces (lines 57-65, 76-78) are not modelled. The oracle reads the same blocks the kernel uses. Only the snapshot and restore of `y` (lines 74, 104, 111) are kept, as `DeepCopy`.
- The tolerance `eps` and `EXPECT_NEAR_KK` (lines 39-42, 101-102, 109, 116) are not modelled. For `int` the source accepts any `dot(y, y)` within `1e-7 * expected_result` of `expected_result`. The model proves the stronger statement that each run's `dot` equals `expected_result` exactly.
- The float and complex instantiations (lines 183-214) are not modelled. Only `int` is modelled, and `conj` is the identity on it.
- The bodies of `KokkosBlas::Experimental::gemv` and `KokkosBlas::dot` are not part of this model. The kernel is modelled by the BLAS per-row update `y[i] := b*y[i] + a*sum_j op(A)[i,j]*x[j]`. The test itself compares only the squared norm of the result. `dot` is modelled as the plain sum of products. The kernel takes the parsed mode rather than the raw letter.
- SerialGemv.Oracle, SerialGemv.OracleRow, SerialGemv.ImplTestSerialGemv, SerialGemv.Gemv and GemvSpec.Dot compute exactly on unbounded integers. In the source, `y_i`, `expected_result` and the value `dot` returns are 32-bit `int`. `Int32Aggregate` models the 32-bit accumulation of `expected_result` (see Findings).
- SerialGemv.Gemv: the kernel's own checks of argument dimensions are not modelled. Its precondition is the shape the test always passes.
- The physical layout of `A` (`multivector_layout_adapter`, in `KokkosKernels_TestUtils.hpp`) is not part of this model. `A` is modelled by its logical entries. Only the layouts of the `x` and `y` blocks are modelled.
- Const qualification of `x` and `A` (lines 54-55, 106, 113) is a compile-time capability. The model uses one kernel method for all three variants. Its frame already excludes `A` and `x`, and `A` is a value.
- Layout/ETI preprocessor scaffolding, gtest macros, the scenario matrix (lines 120-233) and the CUDA lambda guard are not modelled. The shapes `(0, 1024)`, `(13, 1024)` and `(124, 124)` are covered by the all-shapes lemmas.
- Int32Aggregate.ExpectedResultInt32: the row term `b*h_y(i) + a*y_i` is taken exactly rather than wrapped. `RowTermInRange` shows it stays within 32 bits for the tested operand range.

## Findings

| source | as written | input that shows it | evidently intended | confidence | as-written member | corrected member |
|---|---|---|---|---|---|---|
| unit_test/blas/Test_Blas2_serial_gemv.hpp:80-93 | for `int`, `expected_result` and each square `(b*h_y(i) + a*y_i)^2` are computed in 32-bit `int`, and they exceed `INT_MAX` at the tested sizes (signed overflow, undefined in C++) | the tested shape `N = 13`, `M = 1024` with every entry of `A`, `x` and `y` equal to 9 (within `fill_random`'s range 10): after row 0 the exact aggregate is already 61939761129, while the 32-bit accumulation gives 1810218985; after all 13 rows the exact aggregate is 805216894677 | the exact squared norm of `b*y + a*op(A)*x`, for example accumulated in a 64-bit type; the comparison holds only if `dot` wraps the same way | medium; not executed | `Int32Aggregate.Int32Overflows` | `GemvSpec.ExpectedIsDot` |
