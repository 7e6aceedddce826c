# Host-side verification of an OpenCL matrix multiply, modelled in Dafny

The program multiplies two 16 x 16 matrices on an OpenCL device with a tiled
kernel and checks the device's answer on the host. This project models the
host-side logic of `src/04_matrix_multiply.cpp` and proves its properties:

- `create_matrix` (module `MatrixGenerator`): a `cols * rows` vector filled with
  `rand() % 10`. The random values are a parameter `draws: nat -> nat`, the
  values `rand()` returns after the call's `srand(time(0))`.
- `host_matmul` (module `ReferenceMultiplier`): the reference product, a triple
  loop that writes the flat row-major output `C` in place. `A` and `B` are
  passed by const reference and become `seq<int>`. `C` is updated in place and
  becomes an `array<int>`. The specification functions `Dot`, `ProductRow`,
  `ProductRows` and `Product` define the product. The method is proved to leave
  exactly `Product(A, B, aColumns, bColumns)` in the first `aColumns * bColumns`
  cells and to leave every later cell unchanged. The body of the column loop
  (zero one cell, then the innermost loop that accumulates its dot product)
  is the method `AccumulateCell`.
- `check_result` (module `ResultComparator`): the tolerance comparison with an
  early `return false`. It is proved equal to the predicate `WithinTolerance`.
  Lemmas show that the predicate is reflexive, symmetric and monotone in eps.
- The constants of `main` (module `LaunchGeometry`): `SIZE`, `BLOCK_SIZE`,
  `BYTE_SIZE`, `EPS` for both build precisions, and the global and local work
  sizes. The 4 x 4 tiles divide the 16 x 16 extent.
- The host side of `main` (module `HostVerification`): generate `A` and `B`,
  take the read-back `C`, compute `refC`, compare. For a read-back made of
  whole numbers, the verdict is PASSED exactly when the device returned the
  product of the generated matrices. Non-integer and NaN cells are outside
  the model (see "## Left out").

Module `Matrix` holds the row-major addressing shared by the others.

Element type. `real_t` is `float`, or `double` under `USE_DOUBLE`. It is
modelled as `int`. The generator only produces whole numbers in [0, 10).
Every cell of a 16 x 16 product of such matrices is a whole number in
[0, 1296] (`HostVerification.ReferenceIsExact`). That is far below 2^24, so
both precisions compute it exactly. The tolerance `eps` is a `real`.

Notes on the code, which this model follows:

- `host_matmul` takes its row count from `a_columns`, so `A` is always read
  as a square `a_columns x a_columns` matrix. The caller must supply vectors
  of at least `a_columns * a_columns`, `a_columns * b_columns` and
  `a_columns * b_columns` elements. These are the `requires` of `HostMatmul`.
- `check_result` does not compare lengths. It reads only the first `|v1|`
  elements of `v2`, so it needs `|v2| >= |v1|`.
- The tile size is not validated at run time. The launch is valid because
  `SIZE` and `BLOCK_SIZE` are constants that satisfy divisibility
  (`LaunchGeometry.LaunchGeometryValid`).
- Device buffers are released only on the normal path. `check_cl_error` is
  defined in clutil.h, which is not part of this model; it is assumed to end
  the process on failure, in which case the buffers are not released.

## Model

| member | source | states |
|---|---|---|
| `MatrixGenerator.RandomDigits` | src/04_matrix_multiply.cpp:18-24 | The generated matrix has exactly the requested number of elements, and each one is in [0, 10) |
| `MatrixGenerator.CreateMatrix` | src/04_matrix_multiply.cpp:18-24 | Returns `cols * rows` elements, all in [0, 10). Element i is `rand() % 10` for the i-th draw after the reseed |
| `Matrix.FlatIndexInBounds` | src/04_matrix_multiply.cpp:37 | The flat index `r * cols + c` of a cell inside a rows x cols matrix is below `rows * cols` |
| `ReferenceMultiplier.DotStep` | src/04_matrix_multiply.cpp:38-40 | Each read `A[r*a_columns + ic]` and `B[ic*b_columns + c]` is in bounds. One more loop iteration adds exactly the next term to the partial dot product |
| `ReferenceMultiplier.ProductRowsAt` | src/04_matrix_multiply.cpp:35-41 | In the first `rows` rows of the product, cell (r, c) is the full dot product of row r of A with column c of B |
| `ReferenceMultiplier.ProductAt` | src/04_matrix_multiply.cpp:35-41 | The product has n * m cells. Cell (r, c) equals the sum over ic < n of `A[r*n + ic] * B[ic*m + c]` |
| `ReferenceMultiplier.ProductCell` | src/04_matrix_multiply.cpp:37-40 | The flat position `r*m + c` that host_matmul writes is inside the product, and the product holds that cell's dot product there |
| `ReferenceMultiplier.DotIdentity` | src/04_matrix_multiply.cpp:38-40 | With A the identity, the first k terms of the dot product equal B's cell (r, c) when r < k, and 0 otherwise |
| `ReferenceMultiplier.IdentityProduct` | src/04_matrix_multiply.cpp:35-43 | With A the n x n identity, the product equals the first n * m elements of B |
| `ReferenceMultiplier.DigitDotBound` | src/04_matrix_multiply.cpp:38-40 | With digit inputs, the first k terms of a dot product sum to a value in [0, 81 * k] |
| `ReferenceMultiplier.DigitProductBound` | src/04_matrix_multiply.cpp:35-41 | Every cell of the product of two n x n digit matrices lies in [0, 81 * n] |
| `ReferenceMultiplier.AccumulateCell` | src/04_matrix_multiply.cpp:37-41 | The cell k = r*b_columns + c is first zeroed and then accumulated. It ends holding the product's value at k, and no other element of C changes |
| `ReferenceMultiplier.HostMatmul` | src/04_matrix_multiply.cpp:28-44 | C's first a_columns * b_columns cells become A * B whatever they held before, and the cells beyond them are unchanged |
| `ResultComparator.Abs` | src/04_matrix_multiply.cpp:51 | `fabs` of a difference: the result is the difference or its negation, and it is never negative |
| `ResultComparator.CheckResult` | src/04_matrix_multiply.cpp:47-54 | Returns true iff every index i of v1 has abs(v1[i] - v2[i]) <= eps. Returns false iff some index exceeds eps |
| `ResultComparator.ToleranceReflexive` | src/04_matrix_multiply.cpp:51 | A vector passes against itself for every eps >= 0 |
| `ResultComparator.ToleranceSymmetric` | src/04_matrix_multiply.cpp:51 | For equal lengths, swapping v1 and v2 does not change the verdict |
| `ResultComparator.ToleranceMonotone` | src/04_matrix_multiply.cpp:51 | A pass at eps is a pass at every larger eps |
| `ResultComparator.ToleranceBelowOneIsEquality` | src/04_matrix_multiply.cpp:50-53 | For whole-number vectors and 0 <= eps < 1, passing is equivalent to v1 equalling the prefix of v2 of the same length |
| `ResultComparator.OffByOneFails` | src/04_matrix_multiply.cpp:50-53 | A non-empty result that is one more than the reference everywhere fails for every eps < 1 |
| `LaunchGeometry.ElementBytes` | src/04_matrix_multiply.cpp:11-15 | sizeof(real_t) is 4 or 8 bytes |
| `LaunchGeometry.Eps` | src/04_matrix_multiply.cpp:72-77 | EPS is positive and below 1 for both precisions |
| `LaunchGeometry.EpsTighterForDouble` | src/04_matrix_multiply.cpp:72-77 | The double-precision EPS is smaller than the float one |
| `LaunchGeometry.ByteSize` | src/04_matrix_multiply.cpp:67 | BYTE_SIZE is a whole number of real_t elements, exactly SIZE * SIZE of them, so each device buffer holds one SIZE x SIZE matrix |
| `LaunchGeometry.WorkGroups` | src/04_matrix_multiply.cpp:135-137 | When the local extent tiles the global extent, groups times tile size gives back the global extent in each dimension |
| `LaunchGeometry.LaunchGeometryValid` | src/04_matrix_multiply.cpp:135-137 | The (4, 4) local size divides the (16, 16) global size into 4 x 4 work-groups. The global size has one work-item per element of the SIZE * SIZE host vectors |
| `HostVerification.VerifyOffload` | src/04_matrix_multiply.cpp:83-175 | Reports PASSED exactly when the read-back C equals the product of the two generated matrices |
| `HostVerification.ReferenceIsExact` | src/04_matrix_multiply.cpp:169 | Every reference cell for generated inputs is a whole number in [0, 1296], below 2^24, so float arithmetic is exact |

## Left out

- OpenCL calls are not modelled: `create_clenv`, `clCreateBuffer`, `clSetKernelArg`, `clEnqueueNDRangeKernel`, `clEnqueueReadBuffer`, `clReleaseMemObject`, `release_clenv` and `check_cl_error`. They are foreign driver calls whose behaviour lives in `clutil.h` and the OpenCL runtime; clutil.h is not part of this model. The device's answer enters `VerifyOffload` as the parameter `deviceC`.
- The kernel is not modelled. Its source is loaded at run time from a file named on the command line.
- Buffer release and error exits are not modelled, because they happen only through the driver calls above.
- `srand(time(0))` and `rand()` are not modelled as real entropy. Each call's draws are a parameter. When both `create_matrix` calls fall in the same wall-clock second, they reseed identically and `drawsA == drawsB`, so A equals B. `RAND_MAX` and the modulo bias of `% 10` play no part in any property.
- Floating-point rounding in `real_t` and in `fabs` is not modelled. Elements are integers, which is exact for the values the program produces (`ReferenceIsExact`).
- `VerifyOffload`: the read-back C is modelled as whole numbers, so two cases where the program prints PASSED for a wrong device result are not captured. A non-integer cell within EPS of the reference passes. A NaN cell also passes, because the test at line 51 fails a cell only when the difference is `> eps`, and every comparison with NaN is false. For such inputs the stated "PASSED iff the device returned the product" does not hold of the program.
- `CreateMatrix`: the `int` parameters `cols` and `rows` are modelled as `nat`. A negative or overflowing `cols * rows` makes the vector constructor throw or allocate an unintended size in the program; that behaviour is not modelled.
- `HostMatmul`: the `int` parameters `a_columns` and `b_columns` are modelled as `nat`. With a negative value the loops `r != rows` / `c != columns` never end normally and run into signed overflow; that behaviour is not modelled.
- `HostMatmul`: the `int` index arithmetic `r*b_columns + c` is unbounded, so 32-bit overflow for dimensions beyond about 46340 is not modelled.
- `HostMatmul`: because `A` and `B` are values, `C` aliasing `A` or `B` is not modelled. The program never passes aliased vectors.
- `LaunchGeometry.ElementBytes` assumes the usual 4-byte float and 8-byte double.
- The command-line check (usage message and exit when `argc < 6`) and the PASSED/FAILED console output are not modelled. The kernel header text `#define BLOCK_SIZE` / `#define DOUBLE` is not modelled either.
