# SYCL-DNN kernels: a verified model

This project models the device kernels of SYCL-DNN and the host code that prepares them, and proves that
rewriting index spaces and splitting work does not change what is computed.

| area | modules | main theorems |
|---|---|---|
| Depthwise convolution | `DepthwiseConv`, `DepthwiseForward`, `DepthwiseInputBackprop`, `DepthwiseFilterBackprop`, `StridedSums`, `WorkgroupSizing`, `WindowIndex` | the three loop nests compute three maps of one relation `in = out*stride - pad + f`, and these are mutual adjoints; splitting the filter gradient over a work-group loses nothing |
| Work-group reduction | `WorkgroupReduce` | the barrier-phased tree reduction is safe and correct under every interleaving |
| Division by invariant integers | `FastDivision`, `TensorIndex` | multiply and shift divide exactly, for every word size; the fast index helpers agree with the plain ones |
| Transpose | `Shapes`, `Transpose` | simplification keeps the meaning; the kernel's map is a bijection; inverse permutations restore the tensor |
| Binary operations | `BinaryOp`, `BinaryOpKernels`, `BinaryOpLaunch` | padding, folding and normalising dimensions, and six kernels, preserve broadcasting |
| Matrix multiply | `MatmulBlocks`, `Matmul`, `MatmulTranspose` | register tiles with masks, tails, transposes and beta give the textbook sum, each element exactly once |
| Pooling | `PoolingWindows`, `GridWalks`, `Pooling`, `MaxPooling`, `PoolingOperators`, `PoolingItems`, `PoolingForward`, `PoolingGradients` | both gradients are adjoint to their forward kernels, and conserve mass exactly when no window is empty |
| Reductions | `Reduction`, `OptionalFolds`, `SubgroupRanges`, `SubgroupReduction`, `SubgroupResults` | the multi-pass sub-group reduction gives the result of the single-pass kernel; for maxima and minima, under an exact condition |
| Statistics | `Statistic` | the running mean and variance are exact |

`Arithmetic`, `Sums`, `Adjoints` and `VectorIO` hold what these share: integer facts, finite sums, bilinear
maps, and vector loads and stores.

## How the source is rendered

- Elements are `real`, or any type `T` where no arithmetic is involved. Read-only buffers are sequences;
  written buffers are arrays, which the kernels change in place. Array bounds are checked at every access, so
  every launch theorem also says that no access leaves its buffer.
- A vector of width v is a sequence of v consecutive elements.
- A launch runs its work-items in an arbitrary order in which each occurs once (`IsSchedule`). The work-items
  of one launch write disjoint elements, so running them one after the other in any order stands for running
  them in parallel. `WorkgroupReduce` has no such independence: there the items of a group are separate
  processes that take steps in any interleaving, and wait for each other at barriers.
- Template parameters (vector width, tile sizes, transposes, bounds checks, index width) are ordinary
  parameters, and the theorems hold for all their values that a launcher can choose.
- A kernel that is one long function in the source is split where that keeps proofs short: the inner loop of
  a nest is a method of its own, and so are the computing of a value and the storing of it.
- `FastDiv` and the pooling launches take the width w of the index type; as the launchers check, the number of
  elements must be representable in it.
- Kernels that the source writes once per layout (pooling) or once per broadcast side (binary operations) and that
  differ in an index expression only are one method here, which takes the layout or the side as a parameter.
- Maps such as `DepthwiseConv.Forward` or `Pooling.AverageForward` are defined by a relation between flat
  indices, not by loops. Lemmas show that the loop nests enumerate exactly the related indices, and what the
  relations and the terms are in coordinates (`TapInCoordinates`, `CoversInCoordinates`, `ElementAtCoordinates`,
  `InnerProduct`, `ReducedValue`).

## Where the code and its comments differ

- `src/helpers/workgroup_reduce.h:75-76` asks for a workspace of half the work-group. The code stores at slots
  up to size - 1, and the caller allocates the whole size; the model follows the code.
- `src/depthwise_conv2d/kernels.h:97` multiplies the first filter row by `window_rows` where a row has
  `window_cols` elements. The first filter row is always zero there, so nothing depends on it.
- `src/depthwise_conv2d/queue_depthwise_conv2d_impl.h:88-97`: on a device whose work-groups hold one item the
  sizing loop can leave no columns at all. `WorkgroupSizing.SizeWorkgroup` gives the exact condition.
- `src/matmul/kernels.h:43-48` does not guard the batch index as it does rows and columns.
  `Matmul.BatchesMustFillGroups` says when that matters; with the work-group the launcher passes it never does.
- `src/reduce/queue_reduction_impl.h:40-44` seeds Max with the least positive value of the type.
  `Reduction.ExtremeIff` gives the exact condition under which the result is still the extreme element.
- `src/reduce/subgroup_kernel.h:95` lets surplus work-items bring a zero, which is not neutral for Max and Min.
  `SubgroupResults.ExtremeBySubgroupsIff` gives the exact condition.
- An average over an empty window is 0/0 in the source; the model returns a parameter `empty` in its place.

## Model

| member | source | states |
|---|---|---|
| `DepthwiseConv.Adjoint` | src/depthwise_conv2d/kernels.h:56-350 | for all sizes, strides and padding, <Forward(x,w),e> = <x,InputBackprop(e,w)> = <w,FilterBackprop(x,e)>; the three launch theorems below tie the kernels to these maps |
| `DepthwiseConv.TapInCoordinates` | src/depthwise_conv2d/kernels.h:63-108 | which elements take part together, in coordinates: same image, same feature of output and filter, the channel feature / multiplier, and input + pad = out*stride + filter position in rows and columns |
| `DepthwiseConv.TapSelectsInput` | src/depthwise_conv2d/kernels.h:63-108 | an output and a filter element take part together with exactly one input element, the one at out*stride - pad + f in the same image and channel, if that lies inside the input |
| `DepthwiseConv.TapSelectsFilter` | src/depthwise_conv2d/kernels.h:159-207 | an output and an input element determine the filter element, or none |
| `DepthwiseConv.ForwardLoops` | src/depthwise_conv2d/kernels.h:98-118 | the nest over filter rows and columns visits every input that an output element is tied to, each once |
| `DepthwiseConv.ForwardTapValue` | src/depthwise_conv2d/kernels.h:98-118 | the term of one filter position: the product of the input at out*stride - pad + f, or zero outside it, and the filter element |
| `DepthwiseConv.InputBackpropLoops` | src/depthwise_conv2d/kernels.h:189-218 | the nest over output rows, columns and channel multiples visits every filter element tied to an input element, each once |
| `DepthwiseConv.InputTapValue` | src/depthwise_conv2d/kernels.h:189-218 | the term of one output and multiple: the product of the error and the filter element at in + pad - out*stride, if that lies inside the filter |
| `DepthwiseConv.FilterBackpropLoops` | src/depthwise_conv2d/kernels.h:301-337 | the nest over images, output rows and columns visits every tap of a filter element, each once |
| `DepthwiseConv.FilterTapValue` | src/depthwise_conv2d/kernels.h:301-337 | the term of one output: the product of its error and the input at out*stride - pad + f, or zero outside it |
| `DepthwiseConv.ChosenWidth` | src/depthwise_conv2d/launch.cc:41-91 | the widest of 4, 2 and 1 that the parameters allow: it divides the channels, and is one whenever there is a channel multiplier |
| `DepthwiseForward.ForwardRow` | src/depthwise_conv2d/kernels.h:99-114 | with running offsets, a filter row adds exactly its in-range taps to every lane; every load is inside its buffer |
| `DepthwiseForward.ForwardVector` | src/depthwise_conv2d/kernels.h:60-118 | the lanes of a work-item are the elements of the forward map that it owns |
| `DepthwiseForward.ForwardItem` | src/depthwise_conv2d/kernels.h:56-123 | a work-item writes its own vector and nothing else; surplus work-items write nothing |
| `DepthwiseForward.LaunchForward` | src/depthwise_conv2d/queue_depthwise_conv2d_impl.h:46-69 | in every order of the work-items the output becomes the forward map |
| `DepthwiseInputBackprop.InputRow` | src/depthwise_conv2d/kernels.h:191-214 | one output row, with filter offsets that run backwards by the stride, adds exactly its taps |
| `DepthwiseInputBackprop.InputVector` | src/depthwise_conv2d/kernels.h:156-218 | starting at the first output that reaches the input, the nest yields the elements of the input-gradient map |
| `DepthwiseInputBackprop.InputItem` | src/depthwise_conv2d/kernels.h:152-223 | a work-item writes its own vector and nothing else |
| `DepthwiseInputBackprop.LaunchInputBackprop` | src/depthwise_conv2d/launch.cc:95-114 | with the rewritten padding, the launch turns the output into the input-gradient map of the original parameters |
| `DepthwiseConv.ParamsRestored` | src/depthwise_conv2d/kernel_params.h:33-49 | rewriting the parameters for a gradient kernel twice restores them |
| `DepthwiseFilterBackprop.FilterRow` | src/depthwise_conv2d/kernels.h:309-327 | the strided columns of one row add the taps of the residue class of the item |
| `DepthwiseFilterBackprop.FilterPartial` | src/depthwise_conv2d/kernels.h:262-337 | a work-item's value is the sum over its residue classes of images and columns |
| `DepthwiseFilterBackprop.PartsAreWhole` | src/depthwise_conv2d/kernels.h:256-345 | reducing the values of all work-items of a group by the tree gives the full filter gradient |
| `DepthwiseFilterBackprop.FilterGroup` | src/depthwise_conv2d/kernels.h:341-349 | a work-group stores the gradient of its own filter elements and nothing else |
| `DepthwiseFilterBackprop.LaunchFilterBackprop` | src/depthwise_conv2d/queue_depthwise_conv2d_impl.h:71-118 | in every order of the groups, with the swapped parameters and the chosen work-group, the output becomes the filter-gradient map exactly when sizing leaves any work-items; otherwise nothing is written |
| `StridedSums.SplitIsLossless` | src/depthwise_conv2d/kernels.h:301-337 | for any numbers of batch and column items the partial sums add up to the sum over all images, rows and columns |
| `WorkgroupSizing.Pow2LessThan` | src/depthwise_conv2d/queue_depthwise_conv2d_impl.h:39-42 | the largest power of two that does not exceed the value |
| `WorkgroupSizing.SizeWorkgroup` | src/depthwise_conv2d/queue_depthwise_conv2d_impl.h:83-98 | the loop ends, never raises a factor, and leaves powers of two whose product is as large as the start and the limit allow; it fails, leaving no columns, exactly when the limit is one, there are four or more batch items and at least half as many columns |
| `WorkgroupSizing.SizingFails` | src/depthwise_conv2d/queue_depthwise_conv2d_impl.h:83-97 | a concrete request for which it fails |
| `WindowIndex.RoundRatioUpAboveZero` | include/sycldnn/helpers/ratio.h:43-49 | the least non-negative number of divisors that covers the numerator |
| `WindowIndex.RoundRatioUp` | include/sycldnn/helpers/ratio.h:70-79 | the ratio rounded toward positive infinity, for either sign |
| `WindowIndex.RoundUpToNearestMultiple` | include/sycldnn/helpers/ratio.h:93-110 | the least multiple that is not below the value |
| `WindowIndex.OutWindowFromInput` | src/helpers/window_index.h:62-71 | the first output that reaches the input, and the offset of the input from its window; neither is negative, and no earlier output is within a stride |
| `WorkgroupReduce.StepWrites` | src/helpers/workgroup_reduce.h:97-113 | a step writes only the slot it stores to, and reports exactly the stores out of bounds or to a full slot and the loads out of bounds or of an empty slot |
| `WorkgroupReduce.StepReads` | src/helpers/workgroup_reduce.h:97-113 | what a step does to the items depends on the slot it loads from and on no other |
| `WorkgroupReduce.StepInv` | src/helpers/workgroup_reduce.h:93-113 | every step of every item keeps the invariant of the barrier-phased reduction |
| `WorkgroupReduce.InvExcludesRaces` | src/helpers/workgroup_reduce.h:97-113 | the invariant rules out that two items touch one slot while neither has to wait for the other |
| `WorkgroupReduce.PartnerStored` | src/helpers/workgroup_reduce.h:100-111 | a slot that is loaded was stored before the barrier of that round |
| `WorkgroupReduce.Progress` | src/helpers/workgroup_reduce.h:97-105 | until all items are done one of them can move: nobody waits at a barrier forever |
| `WorkgroupReduce.StepDecreases` | src/helpers/workgroup_reduce.h:97-113 | every step brings the reduction closer to its end |
| `WorkgroupReduce.EveryRunIsSafe` | src/helpers/workgroup_reduce.h:78-115 | in every reachable state of every interleaving: no race, no slot stored twice or loaded empty, all slots in [1, size), and when all are done item 0 holds the root of the tree |
| `WorkgroupReduce.Reduce` | src/helpers/workgroup_reduce.h:78-115 | moving any movable item at each point, the reduction ends with the root of the tree |
| `WorkgroupReduce.TreeIsFold` | src/helpers/workgroup_reduce.h:62-77 | for an associative and commutative operator the root is the sequential fold of all values |
| `FastDivision.FastDiv.constructor` | src/helpers/fast_div.h:96-135 | the search ends with magic numbers for the divisor, without wrap-around, at power <= 2(W-1), and at the least power that suffices |
| `FastDivision.FastDiv.Divide` | src/helpers/fast_div.h:140-145 | multiply-high and shift give the exact quotient of every non-negative value of the type |
| `FastDivision.MagicIsExact` | src/helpers/fast_div.h:41-59 | for every word size of three bits or more, every divisor and every value below 2^(W-1), magic numbers divide exactly |
| `FastDivision.RoundingErrorHarmless` | src/helpers/fast_div.h:61-75 | the sufficient power, checked at the critical value alone, is large enough for every value |
| `FastDivision.SufficientAtTwiceDigits` | src/helpers/fast_div.h:66-79 | power 2(W-1) suffices for every divisor, which bounds the search |
| `FastDivision.IncreaseTwoPowerByOne` | src/helpers/fast_div.h:112-120 | quotient and remainder of 2^p become those of 2^(p+1), without wrap-around |
| `FastDivision.RoomToDouble` | src/helpers/fast_div.h:123-128 | while the search goes on, doubling quotients and remainders cannot wrap |
| `FastDivision.ContinuationTest` | src/helpers/fast_div.h:130-131 | the loop test on quotient and remainder holds exactly when the power does not yet suffice |
| `FastDivision.NoMultipleForDivisorOne` | src/helpers/fast_div.h:97-98 | no W-bit multiple and shift divide any positive value by one, so the check on the divisor is needed |
| `TensorIndex.UnflattenFast2` | src/helpers/tensor_index.h:66-74 | agrees with the plain variant on every representable index |
| `TensorIndex.UnflattenFast3` | src/helpers/tensor_index.h:81-92 | agrees with the plain variant on every representable index |
| `TensorIndex.UnflattenFast4` | src/helpers/tensor_index.h:99-112 | agrees with the plain variant on every representable index |
| `TensorIndex.UnflattenOfFlatten4` | src/helpers/tensor_index.h:143-157 | coordinates in range survive flattening and unflattening |
| `TensorIndex.FlattenOfUnflatten4` | src/helpers/tensor_index.h:143-157 | an index survives unflattening and flattening, with every coordinate in range |
| `TensorIndex.UnflattenOfFlatten3` | src/helpers/tensor_index.h:131-142 | coordinates in range survive flattening and unflattening |
| `TensorIndex.FlattenOfUnflatten3` | src/helpers/tensor_index.h:131-142 | an index survives unflattening and flattening, with every coordinate in range |
| `TensorIndex.LaneOfItem` | src/depthwise_conv2d/kernels.h:63-70 | lane l of the work-item with a given vector index is element index*width + l, in the same image, row and column |
| `Transpose.MergeKeepsMap` | src/transpose/launch.cc:63-77 | merging two dimensions that stay adjacent leaves the flat-input to flat-output map unchanged |
| `Transpose.Transposition.MergeConsecutiveIndices` | src/transpose/launch.cc:63-77 | in place: a valid request of one rank less with the same map, for which being the identity and the rank that simplification will leave are unchanged |
| `Transpose.Transposition.SimplifyTranspose` | src/transpose/launch.cc:85-101 | ends with no adjacent p, p+1, keeping the size, a valid permutation and the map; the rank left is the old one less the number of adjacent pairs |
| `Transpose.MergeKeepsRank` | src/transpose/launch.cc:63-77 | a merge removes one pair and one dimension, so the rank that simplification leaves can be told from the request |
| `Transpose.IdentityMovesNothing` | src/transpose/launch.cc:45-61 | the identity permutation moves no element, so copying is right at rank one |
| `Transpose.FlatOutId` | src/transpose/kernels.h:60-75 | the kernel's loops compute the flat map |
| `Transpose.TransposeItem` | src/transpose/kernels.h:52-79 | a work-item stores one element at its place, and surplus work-items nothing |
| `Transpose.RunKernel` | src/transpose/kernels.h:52-79 | in every order of the work-items the output is the transposed input |
| `Transpose.Launch` | src/transpose/launch.cc:105-131 | the launch transposes as requested exactly when the rank less the number of adjacent pairs is 1 to 6, and otherwise reports an invalid algorithm and writes nothing |
| `Transpose.DistinctIsSchedule` | src/transpose/kernels.h:46-50 | an order of n work-items in which none occurs twice is one of those the launch theorems range over |
| `Transpose.MapIsBijection` | src/transpose/kernels.h:60-77 | every output element is the image of exactly one input element |
| `Transpose.InverseRestores` | src/transpose/kernels.h:66-75 | mapping by a permutation and then by its inverse returns every flat index |
| `Transpose.RoundTrip` | src/transpose/kernels.h:52-79 | transposing by a permutation and then by its inverse restores the tensor |
| `Transpose.CoordinatesPermuted` | src/transpose/kernels.h:66-69 | the element at coordinates id is found at the permuted coordinates |
| `Transpose.PermutedTotal` | src/transpose/kernels.h:47-49 | permuting the dimensions keeps the number of elements |
| `BinaryOp.BroadcastCoordinates` | src/binaryop/kernels.h:111-128 | the index that broadcasting selects is the flat index of the coordinates with broadcast ones set to zero |
| `BinaryOp.ComputeOutDims` | include/sycldnn/internal/binaryop/launch.h:40-61 | succeeds exactly when some output shape is compatible, which is when dimensions aligned at the last one are equal or one of them is one; returns that shape |
| `BinaryOp.CompatibleAligned` | include/sycldnn/internal/binaryop/launch.h:40-61 | a compatible output dimension is the one of the two aligned operand dimensions that is not one, if there is any |
| `BinaryOp.BroadcastMerge` | src/binaryop/launch_binaryop.cc:113-116 | two neighbouring dimensions with the same broadcast direction may be multiplied together without changing any selected index |
| `BinaryOp.FoldDimsCorrect` | src/binaryop/launch_binaryop.cc:100-123 | folding selects the same operand elements for every output element and leaves neighbouring directions different |
| `BinaryOp.Fold` | src/binaryop/launch_binaryop.cc:104-123 | the folding loop computes the fold |
| `BinaryOp.BroadcastDims` | src/binaryop/launch_binaryop.cc:127-134 | lists exactly the broadcast dimensions, in order, with their side |
| `BinaryOp.FoldedShape` | src/binaryop/launch_binaryop.cc:136-141 | no broadcast dimension forces rank one, and exactly one leaves it at most one neighbour on either side |
| `BinaryOp.Normalise` | src/binaryop/launch_binaryop.cc:144-155 | the insert and pop steps compute the normal form |
| `BinaryOp.NormalisedShape` | src/binaryop/launch_binaryop.cc:156-161 | the normal form has rank 2 with the broadcast last, or rank 3 with it in the middle: the internal assertions never fire |
| `BinaryOp.NormalisedOperands` | src/binaryop/launch_binaryop.cc:144-155 | normalising selects the same operand elements |
| `BinaryOpKernels.GenericIndices` | src/binaryop/kernels.h:103-128 | the strides-and-remainder loop finds the operand indices that broadcasting selects |
| `BinaryOpKernels.VecVector` | src/binaryop/kernels.h:160-171 | the vector of the rank-1 kernel |
| `BinaryOpKernels.Bcast2DVector` | src/binaryop/kernels.h:198-211 | the vector of the 2D kernels, for either broadcast side |
| `BinaryOpKernels.Bcast3DVector` | src/binaryop/kernels.h:283-299 | the vector of the 3D kernels, for either broadcast side |
| `BinaryOpKernels.GenericVector` | src/binaryop/kernels.h:81-136 | the element of the generic kernel, whose constructor pads the dimensions to MAX_DIMS |
| `BinaryOpKernels.RunItem` | src/binaryop/kernels.h:160-171 | a work-item writes exactly its own lanes, each with the operator applied to the two selected elements |
| `BinaryOpKernels.Queue` | src/binaryop/kernels.h:158-171 | in every order the work-items of a kernel write every output element |
| `BinaryOpLaunch.VectorWidth` | src/binaryop/launch_binaryop.cc:68-77 | the widest of 4, 2 and 1 that divides the last dimension |
| `BinaryOpLaunch.Prepare` | src/binaryop/launch_binaryop.cc:92-170 | padding, folding and normalising end in a kernel that suits the folded shape, and select the same elements |
| `BinaryOpLaunch.LaunchBinaryop` | src/binaryop/launch_binaryop.cc:80-170 | every output element is the operator applied to the elements that broadcasting the original shapes selects; size mismatches are reported and nothing is written |
| `BinaryOpLaunch.ElementAtCoordinates` | src/binaryop/kernels.h:111-128 | in coordinates: the element at id is the operation applied to the left and the right operand at id, in this order, with broadcast coordinates dropped to zero |
| `BinaryOpLaunch.Validate` | include/sycldnn/binaryop/launch.h:63-87 | the public entry accepts operands exactly when their ranks are at most MAX_DIMS, no dimension is zero, and dimensions aligned at the last one are equal or one of them is one; it passes on the dimensions as given, [1] for a scalar, and a compatible output shape of the larger rank |
| `MatmulBlocks.LoadRow` | src/matmul/blocks.h:62-80 | lanes under the mask are loaded, the others are zero and not read |
| `MatmulBlocks.LoadBlockMasked` | src/matmul/blocks.h:84-102 | the block of a matrix part, zero outside the masks, reading only inside them |
| `MatmulBlocks.LoadBlock` | src/matmul/blocks.h:121-134 | the whole block of a matrix part |
| `MatmulBlocks.TransposeBlock` | src/matmul/blocks.h:36-49 | rows and columns exchanged |
| `MatmulBlocks.LoadMasked` | src/matmul/blocks.h:106-119 | element (i, j) of a block however the matrix is stored, zero outside the masks |
| `MatmulBlocks.LoadUnmasked` | src/matmul/blocks.h:136-148 | element (i, j) of a block however the matrix is stored |
| `MatmulBlocks.ScalarMultiply` | src/matmul/blocks.h:150-158 | every element times the scalar, in place |
| `MatmulBlocks.BlockMmacc` | src/matmul/blocks.h:160-173 | the accumulator plus the product of the two blocks, in place |
| `MatmulBlocks.StoreRow` | src/matmul/blocks.h:175-189 | the masked lanes are written next to each other, and nothing else |
| `MatmulBlocks.StoreBlockMasked` | src/matmul/blocks.h:193-206 | the valid part of the block is written, and nothing else |
| `MatmulBlocks.StoreBlock` | src/matmul/blocks.h:208-219 | the block is written, and nothing else |
| `Matmul.LhsFits` | src/matmul/kernels.h:105-106 | the valid part of a step lies inside the left operand |
| `Matmul.RhsFits` | src/matmul/kernels.h:107-108 | the valid part of a step lies inside the right operand |
| `Matmul.PartialStep` | src/matmul/kernels.h:109-109 | a block product adds exactly the next terms of the inner product; lanes beyond the tail add nothing |
| `Matmul.AccumulateBlock` | src/matmul/kernels.h:103-112 | a masked step or tail |
| `Matmul.AccumulateInternal` | src/matmul/kernels.h:91-99 | an unmasked step |
| `Matmul.InitialBlock` | src/matmul/kernels.h:76-87 | zero, or beta times what the output held |
| `Matmul.AccumulateTile` | src/matmul/kernels.h:88-127 | both loops and the tail together add the whole inner product of every valid element, for any tile sizes and either setting of CheckBounds |
| `Matmul.MatmulItem` | src/matmul/kernels.h:42-134 | a work-item gives its own elements beta*old + inner product and changes no other |
| `Matmul.LaunchMatmul` | src/matmul/queue_kernel_impl.h:38-64 | with CheckBounds chosen as in the launcher, in every order of the work-items each output element receives beta*old + inner product exactly once |
| `Matmul.WholeTile` | src/matmul/launch.cc:35-41 | when the tile size divides the extent no tile sticks out, so the unchecked kernel is safe |
| `Matmul.InnerProduct` | src/matmul/kernels.h:89-121 | what is added to beta*old is the sum over a of lhs[b,r,a]*rhs[b,a,c], with either operand stored transposed or not |
| `Matmul.ZeroOperand` | src/matmul/kernels.h:77-87 | with an operand of zeros, or k = 0, an element becomes beta times its old value |
| `Matmul.IdentityLhs` | src/matmul/kernels.h:89-121 | with the identity matrix on the left, what is added to beta*old is the element of the right operand |
| `Matmul.IdentityRhs` | src/matmul/kernels.h:89-121 | with the identity matrix on the right, what is added to beta*old is the element of the left operand |
| `Matmul.BatchesMustFillGroups` | src/matmul/queue_kernel_impl.h:44-45 | some launched work-item starts past the output exactly when the batches are not a multiple of the batch work-group; the launcher passes one |
| `Matmul.EveryPositionIsAnElement` | src/matmul/kernels.h:48-60 | every position of the output belongs to one element |
| `MatmulTranspose.TransposedLhs` | src/matmul/kernels.h:53-58 | setting the left transpose flag and transposing the left operand cancel out |
| `MatmulTranspose.TransposedRhs` | src/matmul/kernels.h:55-59 | setting the right transpose flag and transposing the right operand cancel out |
| `PoolingWindows.WindowsAreDual` | src/pooling/kernels.h:253-271 | output o is in the input window of i exactly when i is in the output window of o |
| `PoolingWindows.AllWindowsNonEmpty` | src/pooling/kernels.h:373-382 | no window is empty exactly when pad < window and the last window starts inside the input |
| `Pooling.CoversInCoordinates` | src/pooling/kernels.h:66-84 | which inputs a window covers, in coordinates and either layout: same image and channel, and out*stride <= in + pad < out*stride + window in rows and columns |
| `Pooling.SumOverWindow` | src/pooling/kernels.h:76-94 | summing over the inputs that an output covers is summing over a rectangle of its image and channel, in both layouts |
| `Pooling.SumOverCoverers` | src/pooling/kernels.h:325-361 | summing over the outputs that cover an input is summing over a rectangle of outputs |
| `Pooling.CountCounts` | src/pooling/kernels.h:346-357 | the product of the two actual window sizes is the number of elements in the window |
| `Pooling.AverageValue` | src/pooling/kernels.h:59-97 | the average times the number of inputs the window covers is their sum |
| `Pooling.NoEmptyWindow` | src/pooling/kernels.h:373-382 | the two-dimensional form of the condition under which no window is empty |
| `Pooling.AverageAdjoint` | src/pooling/kernels.h:309-364 | when no window is empty, <average(x), e> = <x, gradient(e)> |
| `Pooling.AverageGradientDelivers` | src/pooling/kernels.h:309-364 | the gradient adds up to the errors of the non-empty windows |
| `Pooling.AverageGradientConserves` | src/pooling/kernels.h:336-344 | gradient mass is conserved for all errors exactly when no window is empty |
| `MaxPooling.WinnerIsFirst` | src/pooling/kernels.h:198-213 | the input that receives the error is the covered one of least flat index that equals the output, in either layout |
| `MaxPooling.WinnerUnique` | src/pooling/kernels.h:198-213 | no two inputs are the first maximum of one window |
| `MaxPooling.WinnerExists` | src/pooling/kernels.h:198-213 | a window whose output is its maximum has a first maximum |
| `MaxPooling.MaxGradientDelivers` | src/pooling/kernels.h:140-242 | the gradient adds up to the errors of the non-empty windows |
| `MaxPooling.MaxGradientConserves` | src/pooling/kernels.h:140-242 | gradient mass is conserved for all errors exactly when no window is empty |
| `MaxPooling.MaxGradientIsDual` | src/pooling/kernels.h:140-242 | when no window is empty, <max(x), e> = <x, gradient(e)> |
| `MaxPooling.PooledIsMax` | src/pooling/operators_impl.h:27-33 | accumulating from the least value gives the maximum of a non-empty window, and the least value for an empty one |
| `PoolingOperators.Max.Accumulate` | src/pooling/operators_impl.h:35-41 | lane by lane the larger of the two |
| `PoolingOperators.Average.Accumulate` | src/pooling/operators_impl.h:79-82 | one more value counted and added |
| `PoolingItems.FastDivisorsSupported` | src/pooling/can_fastdiv.h:27-38 | whenever the fast variant is chosen every divisor is greater than one and representable |
| `PoolingItems.Decode` | src/pooling/kernels.h:67-74 | with either division, a work-item finds the coordinates of its vector, in both layouts |
| `PoolingForward.AverageVector` | src/pooling/kernels.h:76-95 | the kernel loops give the mean of every window of the vector; the tally is the number of its elements |
| `PoolingForward.LaunchAverage` | src/pooling/kernels.h:59-97 | in every order of the work-items the output becomes the average map |
| `PoolingForward.MaxVector` | src/pooling/kernels.h:76-95 | the kernel loops give the maximum of every window of the vector, started from the least value |
| `PoolingForward.LaunchMax` | src/pooling/kernels.h:59-97 | in every order of the work-items every output is the maximum of its window |
| `PoolingForward.LoadLanes` | src/pooling/kernels.h:457-464 | the element offsets of both layouts |
| `PoolingGradients.AverageGradientVector` | src/pooling/kernels.h:316-362 | the gather loops give the gradient of a vector of inputs |
| `PoolingGradients.LaunchAverageGradient` | src/pooling/kernels.h:309-364 | in every order of the work-items the output becomes the average gradient |
| `PoolingGradients.IsFirstMaximum` | src/pooling/kernels.h:195-234 | the search with early exits answers whether the input is the row-major-first element equal to the output |
| `PoolingGradients.MaxGradientItem` | src/pooling/kernels.h:140-242 | a work-item stores the errors of the windows whose first maximum its input is |
| `PoolingGradients.LaunchMaxGradient` | src/pooling/kernels.h:140-242 | in every order of the work-items the output becomes the max gradient |
| `Reduction.ReduceColumn` | src/reduce/default_kernel.h:95-107 | the loop combines the elements of one column in order |
| `Reduction.LaunchReduce` | src/reduce/queue_reduction_impl.h:46-61 | in every order of the work-items: Add gives the sum over the middle dimension, Mean times the divisor is that sum, Max (Min) is a bound on the seed and the elements and one of them |
| `Reduction.ReducedValue` | src/reduce/default_kernel.h:31-107 | the same for a single result, in elements of the batches x outer x inner tensor |
| `Reduction.FoldedIsSum` | src/reduce/default_kernel.h:31-53 | for Add and Mean the combination is the sum |
| `Reduction.ExtremeIff` | src/reduce/default_kernel.h:55-77 | for Max and Min the result is the extreme element exactly when some element is at least as extreme as the seed |
| `Reduction.NegativeMaximumLost` | src/reduce/queue_reduction_impl.h:37-44 | with a positive seed, the maximum of a negative column is not found |
| `SubgroupRanges.UpdateLocalRange` | src/reduce/queue_reduction_impl.h:109-124 | the local range divides the global range, keeps sub-groups aligned, fits the device, and is the largest admissible multiple |
| `SubgroupRanges.SubgroupsAreChunks` | src/reduce/subgroup_kernel.h:92-98 | with such a local range two items share a sub-group exactly when they share the slot id / s |
| `SubgroupReduction.SubgroupItem` | src/reduce/subgroup_kernel.h:88-99 | a work-item stores what the members of its own sub-group combine to in slot id / s, counting a zero for members past the end of the row |
| `SubgroupReduction.OneSlotOneValue` | src/reduce/subgroup_kernel.h:92-98 | work-items that store to one slot belong to one sub-group and store one value |
| `SubgroupReduction.GroupsPartitionRow` | src/reduce/subgroup_kernel.h:92-98 | the sub-groups of a row together combine every work-item of the row once |
| `SubgroupReduction.RunPass` | src/reduce/queue_reduction_impl.h:141-150 | a pass keeps what every row combines to, up to one zero if it has more work-items than elements; it writes only its own view and reads only inside its source; all this from the local range chosen |
| `SubgroupReduction.RemainingPasses` | src/reduce/queue_reduction_impl.h:151-176 | alternating between the two buffers, the passes end with one value per row in the output |
| `SubgroupReduction.RunFinalize` | src/reduce/subgroup_kernel.h:110-120 | each result times the row length is what it was before |
| `SubgroupReduction.RunPasses` | src/reduce/queue_reduction_impl.h:104-176 | all passes, from the input to one value per row, with the exact condition under which some pass pads |
| `SubgroupResults.ReduceBySubgroups` | src/reduce/queue_reduction_impl.h:104-183 | for rows of any length and a constant sub-group size: Add gives the sum of each row, Mean times the row length is that sum, both as from the single-pass kernel; Max and Min exactly when no pass pads, and otherwise as from the single-pass kernel seeded with zero |
| `SubgroupResults.RowSums` | src/reduce/subgroup_kernel.h:46-62 | for Add the result is the sum of the row, for Mean it is the sum once multiplied by the row length |
| `SubgroupResults.ExtremeValue` | src/reduce/subgroup_kernel.h:64-80 | an exact maximum (minimum) is an element of the row, and no element is greater (less) |
| `SubgroupResults.ExtremeBySubgroupsIff` | src/reduce/subgroup_kernel.h:92-98 | Max and Min are the extreme element exactly when no pass pads or some element is at least as extreme as zero |
| `SubgroupResults.PaddedMaximumLost` | src/reduce/subgroup_kernel.h:92-98 | a concrete row whose maximum is lost to the padding |
| `Statistic.RunningIsExact` | bench/fixture/statistic.h:107-118 | after any samples mean*n is their sum and the variance multiple is the sum of squared deviations from the final mean |
| `Statistic.SumOfSamples` | bench/fixture/statistic.h:107-118 | the sum meant is that over all samples |
| `Statistic.SquaresOfSamples` | bench/fixture/statistic.h:107-118 | the squared deviations meant are those of all samples from the mean, added up |
| `Statistic.StdDevStatistic.AddIterationTime` | bench/fixture/statistic.h:107-118 | one more sample recorded, with the law above for the new state |
| `Statistic.StdDevStatistic.Variance` | bench/fixture/statistic.h:120-122 | the unbiased sample variance, zero for fewer than two samples |
| `Statistic.MaxStatistic.AddIterationTime` | bench/fixture/statistic.h:62-66 | the maximum bounds all samples and is one of them once a sample reaches the start value |
| `Statistic.MinStatistic.AddIterationTime` | bench/fixture/statistic.h:85-89 | the minimum bounds all samples and is one of them once a sample is at most the start value |

## Left out

- SubgroupResults.ReduceBySubgroups: one sub-group size for all passes, because the buffers are sized for the first one; that size is taken not to exceed the largest work-group.
- The fallback to the single-pass kernel in a later pass of the sub-group reduction, whose row stride is right only for a compact buffer; the fallback before the first pass is modelled.
- The memory model of the work-group reduction beyond what barriers guarantee: the invariant excludes races, so nothing depends on it.
- What a runtime makes of an empty work-group: where sizing leaves none of its work-items, the model runs none.
- Statistic.StdDevStatistic.Variance: the square root and the unit conversions of the reported numbers.
- The local ranges of the matrix multiply, which do not affect the result.
- Overflow of index arithmetic other than in FastDiv: indices are unbounded integers, and the 64-bit index variants are the same code.
- Rounding, NaN, infinities and half precision: arithmetic is exact. With them goes the MaxWithNan operator.
- The SYCL runtime: queues, events, accessors, device queries and kernel compilation. Device limits are parameters.
- Aliasing of read and written buffers: a kernel's inputs are taken as they were before the launch.
- scatter_nd, gather, pointwise operations, batch normalisation, roi_align, direct and tiled convolutions, Winograd, and the backend wrappers.
- Benchmarks, samples, networks and plotting, except the running statistics.
