# Caffe convolution geometry, generated-kernel index arithmetic and tile layer, in Dafny

This project models two pieces of integer logic from the OpenCL/fp16 fork of
Caffe and proves properties about them.

- **The convolution layer** (`src/caffe/layers/conv_layer.cpp`):
  - `compute_output_shape`, which gives one output extent per spatial axis.
  - `generate_fw_defs`, which builds the table of named integer definitions
    (batch offsets, per-axis extents, kernel/pad/stride/dilation per axis,
    GEMM sizes `M`, `N`, `K`, `MG`, `KG`, the tiling constants and the three
    derived sizes `LPTA`, `LPTB`, `v_num_tiles`).
  - The integer index arithmetic of the forward kernel that
    `generate_fw_kernels` writes out as text. This covers:
    - the tiling constants and the `skip_range_check_` flag;
    - the batch/group decode of `get_global_id(2)` and the group pointer
      offsets;
    - the thread-to-cell maps of the `Asub` and `Bsub` tile loads;
    - the implicit im2col gather, with its range check and zero-pad fast path;
    - the guarded, optionally bias-adding store.
  - The global NDRange that `Forward_cpu` enqueues.
- **The tile (replicate) layer** (`src/caffe/layers/tile_layer.cpp`):
  - `Reshape`, which fixes the axis, the tile count and the outer and inner
    block sizes;
  - `Forward_cpu`, which copies each inner block `tiles` times into the output
    buffer.

Layout:

- `arith.dfy` (`Arith`): C++ truncating division, uniqueness of Euclidean
  quotient and remainder, products of extents, and the two-level index
  bijection used throughout.
- `mixed_radix.dfy` (`MixedRadix`): peeling a flat index into per-axis digits,
  last axis first, as the gather does; recombining digits from axis 0 up; both
  round trips and the block bounds.
- `conv_layer.dfy` (`ConvLayer`): the class `ConvolutionLayer`, with
  `ComputeOutputShape`, `GenerateFwDefs` and `SkipRangeCheck`, together with the
  definition table. The table is an ordered list of (name, integer or
  expression) pairs, and every lookup is proved against its closed form.
- `conv_kernel.dfy` (`ConvKernel`): the kernel's index arithmetic, as methods
  with loop invariants (the gather, the store) specified by pure functions.
- `conv_dispatch.dfy` (`ConvDispatch`): the batch/group decode, the group
  pointer offsets, and the launch sizes.
- `tile_layer.dfy` (`TileLayer`): the class `Tile`, with `Reshape` and with
  `Forward` over arrays.

Two places where the code departs from the usual convolution conventions:

- **Output extent.** The usual convention floors the output extent and
  treats a non-positive extent as an error. The code divides with C++
  truncation and checks nothing. `OutputDim` is the code's formula and
  `FloorOutputDim` the floor convention. The two agree whenever the dilated
  kernel fits the padded input (`OutputDimMatchesFloor`).
- **Third launch dimension.** A launch of `batch * group` ids would cover
  every (batch, group) pair. The code launches `batch` ids (see Findings).

Conventions:

- Element values in buffers are integers or a type parameter. Floating-point
  arithmetic plays no part in any property here.
- A `/` that the source writes as C++ division is `Arith.TruncDiv`. Dafny's own
  `/` appears only where every operand is non-negative.

## Model

| member | source | states |
|---|---|---|
| Arith.TruncDiv | src/caffe/layers/conv_layer.cpp:18-19 | C++ division by a positive divisor: the remainder has the sign of the dividend and is smaller than the divisor in magnitude |
| Arith.TruncDivSign | src/caffe/layers/conv_layer.cpp:18-19 | a negative dividend truncates to a non-positive quotient, which is 0 exactly when the dividend exceeds minus the divisor |
| ConvLayer.OutputDim | src/caffe/layers/conv_layer.cpp:16-19 | when the dilated kernel fits the padded input, the extent is the number of stride steps that fit plus one; when it does not fit, the extent is at most 1, and exactly 1 iff the shortfall is less than the stride |
| ConvLayer.FloorOutputDim | src/caffe/layers/conv_layer.cpp:16-19 | reference extent with floor division: `(o-1)*stride <= room < o*stride` for every room |
| ConvLayer.OutputDimMatchesFloor | src/caffe/layers/conv_layer.cpp:16-19 | the truncated extent equals the floor extent whenever the kernel fits |
| ConvLayer.KernelOverhangExtent | src/caffe/layers/conv_layer.cpp:16-19 | input 2, kernel 3, stride 2, no pad: the layer computes extent 1 where the floor extent is 0 |
| ConvLayer.ConvolutionLayer.ComputeOutputShape | src/caffe/layers/conv_layer.cpp:8-22 | `outputShape` gets exactly one entry per spatial axis, in axis order, each the `OutputDim` of that axis's input extent (channel axis skipped), kernel, stride, pad and dilation |
| ConvLayer.ConvolutionLayer.GenerateFwDefs | src/caffe/layers/conv_layer.cpp:151-261 | the emitted table is, entry by entry and in order, the closed-form table `FwDefs` of the layer's configuration |
| ConvLayer.BatchOffsets | src/caffe/layers/conv_layer.cpp:156-166 | the batch offsets are `fin * Prod(inSpatial)` and `fout * Prod(outSpatial)` |
| ConvLayer.EmitExtentDefs | src/caffe/layers/conv_layer.cpp:174-185 | appends `v_imsi_i`, `v_imso_i` interleaved for every axis; the running sizes are the products of the input and output extents |
| ConvLayer.EmitAxisDefs | src/caffe/layers/conv_layer.cpp:187-202 | appends one `stem_i` entry per axis, in axis order, bound to that axis's value |
| ConvLayer.GemmSizes | src/caffe/layers/conv_layer.cpp:210-227 | `N` is the output spatial volume, `KG = fin * Prod(kernel)` and `K = (fin / group) * Prod(kernel)` with C++ division |
| ConvLayer.FwDefs | src/caffe/layers/conv_layer.cpp:151-261 | the table has four offset and size entries, an input and an output extent per axis, one kernel, pad, stride and dilation entry per axis, seven channel and GEMM entries and fifteen tiling entries |
| ConvLayer.Eval | src/caffe/layers/conv_layer.cpp:252-258 | a derived size folds to a value only if every name its expression mentions is bound to an integer literal in the table |
| ConvLayer.FwDefsDistinct | src/caffe/layers/conv_layer.cpp:151-261 | the table defines no name twice, and its names fall into the offset, size, GEMM and tiling blocks and the six per-axis stems |
| ConvLayer.FwDefsSizes | src/caffe/layers/conv_layer.cpp:156-227 | looking up `v_B_off`, `v_C_off`, `v_imsi`, `v_imso`, `v_fin`, `v_fout`, `MG`, `M`, `N`, `KG`, `K` in the table gives their closed forms |
| ConvLayer.FwDefsTiling | src/caffe/layers/conv_layer.cpp:230-258 | every tiling name resolves to the literal or expression of its entry in the tiling block |
| ConvLayer.FwDefsExtents | src/caffe/layers/conv_layer.cpp:178-183 | `v_imsi_i` and `v_imso_i` resolve to the input and output extents of axis i |
| ConvLayer.FwDefsAxisParams | src/caffe/layers/conv_layer.cpp:187-202 | `v_k_i`, `v_p_i`, `v_s_i`, `v_d_i` resolve to kernel, pad, stride and dilation of axis i |
| ConvLayer.FwDefsGrouping | src/caffe/layers/conv_layer.cpp:210-227 | when the group count divides both channel counts, `K * group == KG`, `M * group == MG`, and `v_C_off == group * M * N` |
| ConvLayer.FwDefsLacksGroupCount | src/caffe/layers/conv_layer.cpp:324-338 | the table has no entry for `v_g`, the name the grouped kernel text divides by |
| ConvLayer.ConvolutionLayer.SkipRangeCheck | src/caffe/layers/conv_layer.cpp:282-288 | the flag is true iff no pad value is positive |
| ConvKernel.TableMatchesGenerator | src/caffe/layers/conv_layer.cpp:270-280 | the table's tiling literals equal the generator's constants, `TSM = WPTM*RTSM = 64`, `TSN = WPTN*RTSN = 64`, and `LPTA`, `LPTB` times the work-group size are exactly the tile areas |
| ConvKernel.TilingBlockBindings | src/caffe/layers/conv_layer.cpp:230-258 | any table that binds the tiling names as the tiling block does binds the generator's tile, work-per-thread, vector-width and work-group constants and the three derived-size expressions |
| ConvKernel.TableFormulasEvaluate | src/caffe/layers/conv_layer.cpp:252-258 | folded over the generated table, the `LPTA` and `LPTB` expressions give the generator's values and `v_num_tiles` gives `NumTiles(K)` |
| ConvKernel.FormulasFold | src/caffe/layers/conv_layer.cpp:252-258 | the same folding for any table binding the tiling constants and `K` |
| ConvKernel.NumTiles | src/caffe/layers/conv_layer.cpp:256-258 | for any reduction length, including 0, the tile count is even and at least 2 |
| ConvKernel.NumTilesCoversK | src/caffe/layers/conv_layer.cpp:256-258 | the tile count is even and at least 2, its tiles cover all `K` columns, and for `K >= 1` two fewer tiles would not |
| ConvKernel.KTileIndex | src/caffe/layers/conv_layer.cpp:381-383 | `TSK*t + col` determines `t` and `col`, and lies below `NumTiles*TSK` iff `t` is a loop tile |
| ConvKernel.KTileOwner | src/caffe/layers/conv_layer.cpp:381-383 | every reduction index below `NumTiles*TSK` is column `x % TSK` of a loop tile `x / TSK` |
| ConvKernel.ThreadIdBijective | src/caffe/layers/conv_layer.cpp:379-380 | `tid = tidm*RTSN + tidn` numbers the 16 x 16 work items one-to-one |
| ConvKernel.LoadCellRoundTrip | src/caffe/layers/conv_layer.cpp:377-401 | each (round, tid) of a load maps to a cell of the tile, and back |
| ConvKernel.CellLoaderRoundTrip | src/caffe/layers/conv_layer.cpp:377-401 | each cell of the tile maps to a (round, tid) of the load, and back |
| ConvKernel.ATileLoadExact | src/caffe/layers/conv_layer.cpp:377-389 | over `LPTA` rounds, `(id / TSK, id % TSK)` hits every cell of the TSM x TSK `Asub` exactly once |
| ConvKernel.BTileLoadExact | src/caffe/layers/conv_layer.cpp:395-401 | over `LPTB` rounds, `(id / TSN, id % TSN)` hits every cell of the TSK x TSN `Bsub` exactly once |
| ConvKernel.LoadA | src/caffe/layers/conv_layer.cpp:383-388 | an `Asub` cell reads a weight iff `offM+row < M` and `tiledIndex < K`; the read index lies inside the group's M*K weights and is the row-major position of that (row, column) |
| MixedRadix.Peel | src/caffe/layers/conv_layer.cpp:411-423 | peeling gives one digit per axis, each in `[0, r_i)`, and a non-negative rest |
| MixedRadix.PeelLoopStep | src/caffe/layers/conv_layer.cpp:411-423 | one step of the descending loop: the digit of axis i is `x % r_i`, and peeling `x / r_i` by the earlier axes gives the remaining digits and the same rest |
| MixedRadix.ComposePeel | src/caffe/layers/conv_layer.cpp:430-440 | recombining what peeling produced gives the index back |
| MixedRadix.PeelCompose | src/caffe/layers/conv_layer.cpp:430-440 | peeling a recombined index gives back the digits and the quotient, when every digit is in range |
| MixedRadix.ComposeBounds | src/caffe/layers/conv_layer.cpp:430-440 | with digits in range, a recombined index lies in the block `[q*Prod(r), (q+1)*Prod(r))` of its quotient |
| MixedRadix.PeelRest | src/caffe/layers/conv_layer.cpp:411-423 | the quotient peeling leaves is `x / Prod(r)` |
| MixedRadix.ComposeInjective | src/caffe/layers/conv_layer.cpp:430-440 | different (quotient, in-range digits) never recombine to the same index |
| ConvKernel.PeelScaled | src/caffe/layers/conv_layer.cpp:411-423 | the descending loop over one index: each axis's digit of `Peel` scaled and shifted, and the leftover is the `Peel` rest |
| ConvKernel.PeelAxes | src/caffe/layers/conv_layer.cpp:410-423 | `d_iter_i` is the kernel digit times dilation, `d_temp_i` the output coordinate times stride minus pad, and the channel is what remains of `tiledIndex` |
| ConvKernel.Recombine | src/caffe/layers/conv_layer.cpp:426-440 | the ascending loop yields `Compose(channel, h, imsi)` with `h_i = d_temp_i + d_iter_i`, and when the check is not skipped, `in_range` is true iff every `h_i` is in `[0, imsi_i)` |
| ConvKernel.GatherSpec | src/caffe/layers/conv_layer.cpp:405-446 | an offset that passes the range check lies inside the plane of input channel `tiledIndex / Prod(kernel)`: `[c*imsi, (c+1)*imsi)` |
| ConvKernel.LoadB | src/caffe/layers/conv_layer.cpp:395-451 | a `Bsub` cell reads only inside the N x K matrix (`offN+col < N`, `tiledIndex < K`), and with the range check on it reads inside the plane of its input channel |
| ConvKernel.Gather | src/caffe/layers/conv_layer.cpp:405-451 | the emitted gather computes the closed-form offset `GatherSpec`, and loads iff the check is skipped or every coordinate is in range |
| ConvKernel.GatherChannel | src/caffe/layers/conv_layer.cpp:411-423 | the channel read is `tiledIndex / Prod(kernel)` |
| ConvKernel.GatherReadsInputElement | src/caffe/layers/conv_layer.cpp:426-446 | an in-range offset addresses exactly the input element at that channel and those coordinates: peeling it by the input extents gives them back |
| ConvKernel.GatherInGroupInput | src/caffe/layers/conv_layer.cpp:426-446 | for `tiledIndex < K`, an in-range offset lies in `[0, (fin/group) * imsi)` |
| ConvKernel.UnpaddedAxisInRange | src/caffe/layers/conv_layer.cpp:414-421 | with no pad, an output coordinate below the floor extent plus a kernel offset below the kernel size gives a coordinate inside the input |
| ConvKernel.FastPathMatchesCheckedLoad | src/caffe/layers/conv_layer.cpp:426-451 | with all pads 0 and floor output extents, the unchecked `Bsub` load equals the checked one |
| ConvKernel.FastPathSafeWhenKernelFits | src/caffe/layers/conv_layer.cpp:426-451 | the same holds for the layer's own (truncated) extents whenever the kernel fits on every axis |
| ConvKernel.TruncatedExtentBreaksFastPath | src/caffe/layers/conv_layer.cpp:426-451 | input 2, kernel 3, stride 2, no pad with the layer's extent 1: the checked load gives zero, the fast path reads offset 2, past the 2 input elements |
| ConvKernel.PositionOwner | src/caffe/layers/conv_layer.cpp:514-522 | every row (column) in `[0, groups*64)` is `offM + tidm + wm*RTSM` for some work-group, local id and register |
| ConvKernel.OwnedPositionUnique | src/caffe/layers/conv_layer.cpp:514-522 | that triple is recovered from the row it owns, so each row is covered exactly once |
| ConvKernel.AccumulatorLanes | src/caffe/layers/conv_layer.cpp:525-530 | `Creg[wm][wn/VWN]` lane `wn%VWN` is a bijection between the WPTN results of a row and the register lanes |
| ConvKernel.StoreIndexInjective | src/caffe/layers/conv_layer.cpp:523-530 | two guarded elements of a work item never write the same output index |
| ConvKernel.StoreIndexInBlock | src/caffe/layers/conv_layer.cpp:523-530 | a guarded element writes inside the group's M x N block |
| ConvKernel.StoreStepValues | src/caffe/layers/conv_layer.cpp:520-532 | one store step keeps every earlier element's value and adds the current one |
| ConvKernel.StoreStepFrame | src/caffe/layers/conv_layer.cpp:520-532 | one store step changes nothing but the element it writes |
| ConvKernel.StoreResults | src/caffe/layers/conv_layer.cpp:512-534 | every element with `globalRow < M && globalCol < N` is written at `Cptr[globalRow*N + globalCol]`, with its row's bias added iff the layer has one, and no other output element changes |
| ConvKernel.StoreRow | src/caffe/layers/conv_layer.cpp:513-533 | one pass of the outer loop writes row `wm`'s guarded elements and nothing else |
| ConvKernel.StoreCell | src/caffe/layers/conv_layer.cpp:523-530 | one inner iteration applies `StoreElement`: the guarded element is written at its output index with its row's bias, and nothing else changes |
| ConvKernel.UnguardedBiasReadLeavesGroup | src/caffe/layers/conv_layer.cpp:514-518 | when M is not a multiple of 64, a valid work item reads `Dptr[globalRow]` with `globalRow >= M`, an element it never stores |
| ConvDispatch.BatchAndGroupBijective | src/caffe/layers/conv_layer.cpp:324-329 | `batch*g + group` decodes back to (batch, group); with `BatchAndGroup`'s contract, the decode `(id / g, id % g)` and this encoding are inverse, so every pair comes from exactly one id |
| ConvDispatch.BatchAndGroup | src/caffe/layers/conv_layer.cpp:324-329 | for a non-negative id, the group is in `[0, g)`, the batch is non-negative, and `batch*g + group` gives the id back |
| ConvDispatch.GroupPointers | src/caffe/layers/conv_layer.cpp:331-347 | group 0 of the grouped formulas gives the single-group pointers: the whole weights and bias, and the batch's full image and output |
| ConvDispatch.SingleGroupPointers | src/caffe/layers/conv_layer.cpp:324-347 | with one group the id is the batch, its pointers are group 0's under any grouping, and its output block is `[id*M*N, (id+1)*M*N)`, inside the launch's output |
| ConvDispatch.OutputBlockStart | src/caffe/layers/conv_layer.cpp:335-336 | `Cptr` of (batch, group) is `(batch*g + group) * M*N` and its block lies inside the launch's output |
| ConvDispatch.OutputBlockOwner | src/caffe/layers/conv_layer.cpp:335-336 | every output element lies in the block of the pair its block number names, so the blocks cover the output |
| ConvDispatch.OutputBlocksDisjoint | src/caffe/layers/conv_layer.cpp:335-336 | an output element in the `Cptr` blocks of two (batch, group) pairs belongs to one pair: the blocks do not overlap |
| ConvDispatch.InputSliceInImage | src/caffe/layers/conv_layer.cpp:333-334 | `Bptr` of a group starts its `(fin/g) * imsi` elements inside its batch image |
| ConvDispatch.InputSlicesDisjoint | src/caffe/layers/conv_layer.cpp:333-334 | an input element in the `Bptr` slices of two (batch, group) pairs belongs to one pair, so the groups of one image read disjoint channels |
| ConvDispatch.WeightAndBiasSlices | src/caffe/layers/conv_layer.cpp:332-339 | the group's M*K weights and M bias entries lie inside the layer's weights and biases |
| ConvDispatch.WeightAndBiasSlicesDisjoint | src/caffe/layers/conv_layer.cpp:332-339 | distinct groups use disjoint `Aptr` weight slices and disjoint `Dptr` bias slices |
| ConvDispatch.BlocksForCovers | src/caffe/layers/conv_layer.cpp:54-55 | `(count-1)/64 + 1` blocks of 64 cover `count` positions, and one fewer would not |
| ConvDispatch.LaunchCoversOutputPlane | src/caffe/layers/conv_layer.cpp:49-55 | the first two global sizes are whole multiples of the 16 x 16 work-group, and enough for every output column and every row of a group |
| ConvDispatch.GlobalSize | src/caffe/layers/conv_layer.cpp:53-56 | the first two global sizes are whole 16-wide work-groups, `BlocksFor(H*W)` of them and `BlocksFor(fout/group)` of them; the third is the batch count |
| ConvDispatch.CorrectedGlobalSize | src/caffe/layers/conv_layer.cpp:53-56 | the corrected launch differs from the launch as written only in its third size, `batch * group` |
| ConvDispatch.GroupedLaunchMissesPairs | src/caffe/layers/conv_layer.cpp:56 | with more than one group, no id of the third dimension as launched decodes to (last batch, last group) |
| ConvDispatch.CorrectedLaunchCoversPairs | src/caffe/layers/conv_layer.cpp:56 | with `batch*group` ids, every (batch, group) pair is decoded from exactly one id, and every id decodes to an existing pair |
| TileLayer.CanonicalAxisIndex | src/caffe/layers/tile_layer.cpp:12 | succeeds iff the axis lies in `[-numAxes, numAxes)`, giving the axis or the axis plus `numAxes` |
| TileLayer.Tile.Reshape | src/caffe/layers/tile_layer.cpp:9-21 | fails (leaving the tile count or block sizes unchanged) on a bad axis, a missing tile count or a non-positive one; otherwise the top shape is the bottom shape with the axis extent times `tiles`, `outerDim` is the product of the axes before it and `innerDim` the product from it on |
| TileLayer.TopCount | src/caffe/layers/tile_layer.cpp:16-18 | the top count is `tiles` times the bottom count |
| TileLayer.OuterTimesInner | src/caffe/layers/tile_layer.cpp:19-20 | `outerDim * innerDim` is the bottom count |
| TileLayer.CopyBlock | src/caffe/layers/tile_layer.cpp:30 | `caffe_copy`: the block is copied and nothing else in the destination changes |
| TileLayer.Tile.Forward | src/caffe/layers/tile_layer.cpp:24-35 | `top[(i*tiles + t)*inner + j] == bottom[i*inner + j]` for every i < outer, t < tiles, j < inner; with one tile, top equals bottom |
| TileLayer.ReplicateBlock | src/caffe/layers/tile_layer.cpp:29-33 | one outer pass copies input block i into output blocks `i*tiles .. i*tiles + tiles - 1` and advances the output position by `tiles*inner` |
| TileLayer.CopyTile | src/caffe/layers/tile_layer.cpp:30-31 | one copy extends the prefix of filled output blocks by one |
| TileLayer.TilingComplete | src/caffe/layers/tile_layer.cpp:28-34 | once all `outer*tiles` blocks are filled, the output is the tiling of the input, and with one tile it equals the input |
| TileLayer.CopiedBlocksAreTiles | src/caffe/layers/tile_layer.cpp:28-34 | filled output block `i*tiles + t` is copy t of input block i |
| TileLayer.OneTileIsCopy | src/caffe/layers/tile_layer.cpp:28-34 | with one tile, a filled output equals the input |
| TileLayer.CopyStep | src/caffe/layers/tile_layer.cpp:30-31 | copying input block `q / tiles` to output block q extends the filled prefix |
| TileLayer.EarlierBlocksKept | src/caffe/layers/tile_layer.cpp:30-31 | a copy past position `q*inner` keeps the first q blocks filled |
| TileLayer.CopyStepInRange | src/caffe/layers/tile_layer.cpp:30-33 | every block copied lies inside both buffers |
| TileLayer.OutputIndexOwner | src/caffe/layers/tile_layer.cpp:28-34 | every output index is element j of copy t of input block i for exactly one (i, t, j): each top element is written exactly once |

## Left out

- The OpenCL plumbing (`clCreateKernel`, `clSetKernelArg`, `clEnqueueNDRangeKernel`, `OPENCL_CHECK`) and `TileLayer::Forward_gpu`: they are foreign runtime calls. Only the global-size arithmetic of the convolution dispatch is modelled.
- The GEMM paths `Forward_gpu`, `Backward_cpu` and `Backward_gpu`: they use floating-point values and call helpers that are not part of this model. The source's naming is swapped: the function named `Forward_cpu` does the OpenCL dispatch, and the one named `Forward_gpu` runs the CPU GEMM.
- `generate_accreg_init`, `generate_gemm_core` and `add_def` are not part of this model. The accumulated sums are taken as given register contents, and the text format of a definition is not modelled.
- The characters of the emitted kernel text (attributes, pragmas, local-memory declarations, braces) are left out. The model keeps the integer arithmetic that text performs.
- Barriers and work-group concurrency are left out. Each load and store is modelled for one work item, and disjointness across work items is stated through `OwnedPositionUnique`, `OutputBlocksDisjoint`, `InputSlicesDisjoint` and `WeightAndBiasSlicesDisjoint`.
- The commented-out load and store variants are not modelled.
- Fixed-width integers are not modelled: all integers are unbounded, so 32-bit overflow of products such as `v_B_off` is not represented.
- `Blob::CanonicalAxisIndex`, `Blob::count` and `Blob::Reshape` are not part of this model. `TileLayer.CanonicalAxisIndex` follows Caffe's documented convention, and a failed check becomes a `Failure` result instead of an abort.
- TileLayer.Tile.Reshape: requires every bottom extent to be non-negative, which Caffe's blobs guarantee but this file does not check itself.
- ConvLayer.ConvolutionLayer.ComputeOutputShape: requires one kernel, stride, pad and dilation entry per spatial axis and positive strides. The layer's set-up, which is not part of this model, checks both.
- ConvLayer.Eval: an expression whose divisor folds to a non-positive value has no value in the model. The table's only divisors are positive literals.
- ConvKernel.PeelAxes: the kernel text peels `tiledIndex` and `imageIndex` in one loop over the axes. They share no variable, so the model runs the two peels one after the other.
- TileLayer.Tile.Forward: that `bottom` is unchanged follows from its `modifies top` frame and `top != bottom`, not from a postcondition.
- ConvKernel.StoreResults: models the store with the bias read moved under the row guard (see Findings). The store as written is exhibited by `ConvKernel.UnguardedBiasReadLeavesGroup` and is not run as a method.
- ConvKernel.StoreRow: reads the bias only for rows below M, like `StoreResults`; the unguarded read of the code is not modelled by it.
- ConvDispatch.GroupPointers: `v_g` is bound to the layer's group count, although the definition table never defines that name (`ConvLayer.FwDefsLacksGroupCount`).
- ConvKernel.ValidGeometry: requires positive kernel and output extents on every axis. `OutputDim` can give 0 or less and nothing in the code checks it; the gather's `%` by such an extent is then undefined in the kernel.
- The number of spatial axes is general in the model. `Forward_cpu`'s global size uses output axes 2 and 3, that is two spatial axes, and `ConvDispatch.GlobalSize` keeps that.

## Findings

| source | as written | input that shows it | evidently intended | confidence | as-written member | corrected member |
|---|---|---|---|---|---|---|
| src/caffe/layers/conv_layer.cpp:18-19 | the output extent truncates toward zero, so a kernel that overhangs the input by less than the stride still gets one output position; with no padding the gather then skips the range check | input 2, kernel 3, stride 2, pad 0, dilation 1: extent 1; reduction index 2 of column 0 gathers coordinate 2 and reads offset 2, past the 2 input elements | floor extent (0 positions), for which the unchecked load always equals the checked one | not executed | ConvKernel.TruncatedExtentBreaksFastPath | ConvKernel.FastPathMatchesCheckedLoad |
| src/caffe/layers/conv_layer.cpp:56 | the third global size is the batch count, while the grouped kernel splits that id into (batch, group) | group count 2, batch 1: ids {0} decode only to (0, 0); pair (0, 1) is never computed | one id per (batch, group) pair, `batch * group` | not executed | ConvDispatch.GroupedLaunchMissesPairs | ConvDispatch.CorrectedLaunchCoversPairs |
| src/caffe/layers/conv_layer.cpp:516-518 | `biasval = Dptr[globalRow]` is read before the `globalRow < M` guard | M = 1: the work item with `tidm = 15` reads row 63 in its last pass (`wm = 3`), past the group's one bias entry (past the whole buffer for the last group) | read the bias only for rows below M | not executed | ConvKernel.UnguardedBiasReadLeavesGroup | ConvKernel.StoreResults |
