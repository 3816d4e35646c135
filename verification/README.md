# FlashAttention: verified model of its kernels, tiling and host arithmetic

This project models six parts of the FlashAttention repository in Dafny and proves what they
promise. `dafny verify dfyconfig.toml` checks everything.

1. **Tiled attention.** The Triton forward and backward kernels, loop by loop, are proved equal to
   plain softmax attention and to its gradient, for every sequence length, block size, padded head
   dimension and bias, causal or not. The atomic accumulation of dQ gives the same result in every
   interleaving, and the older (m, l) kernels compute the same output and gradients. That the three
   matrices are the gradient is proved too: they are the adjoint of the derivative of softmax
   attention, with the exponential its own derivative.
   A score is kept as an extended real in logarithmic form (`LogReals`): `Ln(w)` stands for ln w
   and `NegInf` for minus infinity, so exp and log are exact and "no NaN" is a proof obligation,
   because subtracting demands a finite subtrahend. The scaling and bias happen on ordinary reals;
   the exponential is any positive, non-decreasing function `e`.
   The same loops are given once more in IEEE arithmetic with infinities and NaN (`IeeeNumbers`, whose
   operations keep the laws `AddLaws`, `MulLaws` and `ExpLaws`), for any scale, to say exactly when
   the kernels are right.
   Modules: `RealSums`, `LogReals`, `Attention`, `AttentionGradient`, `AttentionTangent`,
   `ForwardKernel`, `BackwardKernel`, `AtomicDq`, `OlderKernels`, `IeeeNumbers`, `ScaleCondition`,
   `BackwardScaleCondition`.
2. **Tile ranges and masks.** Which key blocks a query block visits, which need a mask, how splits
   divide them, which query blocks the backward visits, what `Mask::apply` sets to minus infinity,
   and which mask each iteration of the main loops applies. C++ truncating division is modelled
   as such, with negative dividends. The host's rewriting of windows is proved to keep the mask,
   and where one front end does not keep it, the exact condition is proved.
   From the caller's settings to the masked scores the three parts are joined in one statement.
   Modules: `TruncatedDivision`, `BlockMN`, `TileMask`, `WindowNormalization`, `CallerToTiles`.
3. **Deterministic dK/dV accumulation.** A state machine of CTAs that wait for, add under and pass
   on semaphores; the addition is an arbitrary binary operation. Module: `GqaTicketStore`.
4. **Producer/consumer ring.** A state machine of one producer, asynchronous copies that land
   element by element, parity barriers and any number of lanes. Module: `RingPipeline`
   (both protocols share `SeqTotals`).
5. **Block-mask encoder.** Stable sorts, inverse permutations and in-place flag writes.
   Modules: `StableSort`, `BlockMaskEncoder`.
6. **Ragged packing and layouts.** Unpad and pad with their gradients, concatenated sequences,
   the packed GQA layout, and padded allocations. Modules: `IndexFirstAxis`, `BertPadding`,
   `ConcatenatedSequences`, `PackGqaLayout`, `PaddedAllocation`.

Where the code updates things in place, the model does too: loops over tiles, array writes and
scatter loops are methods, each tied by its contract to a specification function. The two
concurrent protocols are given as transition functions, with lemmas about every run, and as a loop
that runs them under an arbitrary scheduler.

Where the code does not keep what one would expect of it, the exact condition is proved:

- `_resolve_causal_local_window` without a mask_mod turns a window whose sides cross
  (left + right < 0, which admits no pair) into full or plain causal attention, and keeps the mask in
  all other cases. With a mask_mod it drops the causal flag and the window, which keeps the mask only
  if they exclude nothing (`WindowNormalization.ResolvePreservesMaskIff`). The forward passes its
  mask_mod there and the backward does not, so for causal=True with a mask_mod the two passes
  resolve the same call differently (`PassesResolveAlikeIff`, `DroppedCausalExample`).
- The Triton forward and both backwards mask a score and scale it afterwards. In IEEE arithmetic they
  compute softmax attention and its gradient exactly when the scale is positive or no visited pair
  is masked (`ScaleCondition.ForwardIff`, `BackwardScaleCondition.LogSumExpBackwardIff`,
  `OlderBackwardIff`). Nothing is masked (`ForwardKernel.NothingMasked`) without a causal mask when
  BLOCK_N divides seqlen_k, and with one when BLOCK_N is 1 and BLOCK_M or seqlen_k is 1; otherwise
  row 0 already fails, and `NegativeScaleExample` is one such call at the launcher's block sizes. A
  launcher replaces a scale of 0 by its default (`flash_attn/flash_attn_triton.py:822`), a negative
  one it passes on. The older forward scales first and is proved for every scale.
- The overwriting scatter in `IndexFirstAxis.backward` is the gradient of the gather exactly when no
  index repeats (`IndexFirstAxis.ScatterIsAdjointIff`).
- `unpad_input` returns consistent lengths for integer masks exactly when the two masks do not
  overlap (`BertPadding.LengthsAgreeIff`). Its docstring (`flash_attn/bert_padding.py:107`) describes
  seqused as counting both masks, while the code counts the attention mask alone; the model
  follows the code, and `SequsedIsSegmentIff` says when the two agree. `OverlappingMasksExample`
  is an input for which both fail.

## Model

| member | source | states |
|---|---|---|
| `ForwardKernel.RowStep` | flash_attn/flash_attn_triton.py:212-252 | one iteration of the key loop keeps, for a row, exp(lse) equal to the sum of the weights seen and acc times exp(m) equal to the weighted sum of values |
| `ForwardKernel.MaxBeforeScaling` | flash_attn/flash_attn_triton.py:215 | without bias, scaling the maximum is the maximum of the scaled scores |
| `ForwardKernel.IterationRange` | flash_attn/flash_attn_triton.py:212-252 | every exponent is at most 0, the new norm lies in [1, BLOCK_N + 1], and lse is at least m |
| `ForwardKernel.ReferenceIsFinite` | flash_attn/flash_attn_triton.py:160-216 | the running reference is never minus infinity: key 0 is visible in the first block, later lse is finite even when a block is fully masked for the row |
| `ForwardKernel.Iterate` | flash_attn/flash_attn_triton.py:161-252 | the loop body keeps the invariant for all rows of a tile, with ragged keys and a padded head dimension, and, for a positive scale or with a bias, in every iteration no exponent is positive and the new norm lies in [1, BLOCK_N + 1] |
| `ForwardKernel.FinalScale` | flash_attn/flash_attn_triton.py:254-258 | after the loop lse is the log of the full row sum and acc * exp(m - lse) is softmax(scores) V |
| `ForwardKernel.ForwardTile` | flash_attn/flash_attn_triton.py:139-258 | the whole loop, with its causal end, leaves every row finished |
| `ForwardKernel.ForwardBlock` | flash_attn/flash_attn_triton.py:259-284 | one program writes its rows of Out and Lse and nothing else |
| `ForwardKernel.BlocksFitRounded` | flash_attn/flash_attn_triton.py:263-264 | for every block size that divides 128 the grid's rows fit the Lse buffer rounded to 128 |
| `ForwardKernel.Forward` | flash_attn/flash_attn_triton.py:66-284 | the grid computes softmax(scale QK' + bias, masked) V and exp(lse) = row sum for every row, for every block size whose tiles fit the Lse buffer and every scale, if it is positive or no visited pair is masked |
| `ScaleCondition.ScoreIsDefined` | flash_attn/flash_attn_triton.py:181-216 | for any scale a masked and scaled score is one of the specification iff the scale is positive or the pair is visible; otherwise it is plus infinity or NaN |
| `ScaleCondition.ForwardTile` | flash_attn/flash_attn_triton.py:139-252 | the loop of a tile in IEEE arithmetic leaves the rows that the row-wise recursion describes, whatever the device takes for a maximum with a NaN |
| `ScaleCondition.AfterIsGood` | flash_attn/flash_attn_triton.py:161-252 | where no visited pair is masked or the scale is positive, every iteration in IEEE arithmetic keeps the invariant of the forward kernel |
| `ScaleCondition.AfterIsBroken` | flash_attn/flash_attn_triton.py:161-252 | one undefined score leaves neither the log-sum-exp nor any accumulator of its row a value, to the end of the loop |
| `ScaleCondition.ForwardIff` | flash_attn/flash_attn_triton.py:139-284 | the forward stores softmax attention and its log-sum-exp for every row iff the scale is positive, no visited pair is masked (by causal flag, block sizes and seqlen_k) or there is no query |
| `BackwardScaleCondition.ColumnSums` | flash_attn/flash_attn_triton.py:399-556 | in IEEE arithmetic the loop over row tiles leaves the blocked totals that dK and dV stand for, also when it does not run |
| `BackwardScaleCondition.QuerySequence` | flash_attn/flash_attn_triton.py:562-595 | in IEEE arithmetic the column blocks in sequence leave the blocked totals that dQ stands for |
| `BackwardScaleCondition.BackwardIff` | flash_attn/flash_attn_triton.py:479-608 | for loads that suit the gradient, normalised or not, dQ, dK and dV are the gradient iff the scale is positive, no visited pair is masked or dQ is empty |
| `BackwardScaleCondition.LogSumExpBackwardIff` | flash_attn/flash_attn_triton.py:479-608 | that condition for the backward that loads the log-sum-exp |
| `BackwardScaleCondition.OlderBackwardIff` | flash_attn/flash_attn_triton_og.py:189-245 | for the older backward after its preprocessing: iff the scale is positive, the block size is 1 or the head dimension is 0 |
| `BackwardScaleCondition.NegativeScaleExample` | flash_attn/flash_attn_triton.py:185-216 | scale -1, causal, 2 by 2, blocks of 128: the output of query 0 is 1, but its log-sum-exp, its accumulator and its dQ are no values |
| `Attention.WeightIs` | flash_attn/flash_attn_triton.py:181-216 | the weight of a query and a key is exp of the scaled inner product of their rows plus their vector or matrix bias, and 0 for a later key under a causal mask |
| `Attention.ProbabilitiesSumToOne` | FA4_fp32/reference.py:65 | each row of the specification's softmax sums to one |
| `AttentionGradient.DeltaTrick` | flash_attn/flash_attn_triton.py:327 | sum(o * do) over the head dimension equals rowsum(P o dP) over the keys |
| `AttentionGradient.ScoreGradientsCancel` | flash_attn/flash_attn_triton.py:554 | the score gradient of a row sums to zero |
| `AttentionTangent.ScoreGradientIsAdjoint` | flash_attn/flash_attn_triton.py:554 | for every change of the scores of a row, dP paired with the change of the softmax row is dS paired with the change of the products |
| `AttentionTangent.GradientsAreAdjoint` | flash_attn/flash_attn_triton.py:538-608 | for every change of Q, K and V, dO paired with the change of the output is dQ, dK and dV paired with the changes of Q, K and V |
| `AttentionGradient.SkippedRowsAddNothing` | flash_attn/flash_attn_triton.py:399-400 | rows that do not see a key add nothing to its dV and dK |
| `AttentionGradient.PaddedRowsAddNothing` | flash_attn/flash_attn_triton.py:468-478 | query rows beyond the sequence add nothing to dV and dK |
| `BackwardKernel.Preprocess` | flash_attn/flash_attn_triton.py:305-329 | the stored delta is rowsum(P o dP) for every row |
| `BackwardKernel.GradientTile` | flash_attn/flash_attn_triton.py:479-554 | p recomputed from lse is the softmax and ds is the score gradient, entry by entry |
| `BackwardKernel.TileExtendsPartial` | flash_attn/flash_attn_triton.py:538-556 | a row tile extends the partial sums of dV and dK by exactly its rows |
| `BackwardKernel.AddToDQ` | flash_attn/flash_attn_triton.py:562-595 | load, add, store changes dQ on the tile's rows by this key block's part of dS K |
| `BackwardKernel.RowsBelowBeginM` | flash_attn/flash_attn_triton.py:399-400 | the skipped rows below begin_m contribute zero to dV, dK and dQ |
| `BackwardKernel.OneColBlock` | flash_attn/flash_attn_triton.py:399-630 | one column block stores its full dV and dK, also on the early exit, and adds its part to dQ |
| `BackwardKernel.Backward` | flash_attn/flash_attn_triton.py:737-773 | over all column blocks dV = P'dO, dK = dS'Q and dQ = dS K, under the same condition on the scale |
| `BackwardKernel.ForwardThenBackward` | flash_attn/flash_attn_triton.py:812-1000 | forward, preprocessing and backward in sequence give the output and its gradient |
| `AtomicDq.TileProductIsAddend` | flash_attn/flash_attn_triton.py:597 | dot(ds, k) of a tile is the amount its atomic add contributes |
| `AtomicDq.TileAdds` | flash_attn/flash_attn_triton.py:597-608 | one tile issues one add for each row and head dimension that exists, with the right amount, and no other |
| `AtomicDq.ParallelProgram` | flash_attn/flash_attn_triton.py:399-630 | one program of the parallel grid stores its dK and dV and issues, once each, the adds of the rows from begin_m on, with the amounts it computes |
| `AtomicDq.ProgramsAreComplete` | flash_attn/flash_attn_triton.py:774-809 | all programs together issue every add exactly once and nothing else |
| `AtomicDq.MergeIsUnion` | flash_attn/flash_attn_triton.py:774-809 | every merge of the programs' adds performs exactly what they issue |
| `AtomicDq.TallyStep` | flash_attn/flash_attn_triton.py:596-608 | one more atomic add changes exactly its own element, by its addend |
| `AtomicDq.EveryInterleavingGivesGradQ` | flash_attn/flash_attn_triton.py:596-608 | whatever the order of those adds into a zeroed dQ, the result is dS K, that of the sequential loop |
| `AtomicDq.AtomicAdds` | flash_attn/flash_attn_triton.py:596-608 | the adds performed in place in any order leave dQ = dS K |
| `AtomicDq.BackwardParallel` | flash_attn/flash_attn_triton.py:774-809 | the parallel launch, with programs in any order and their adds in any order at all, gives dQ, dK and dV |
| `OlderKernels.BlockMaxIsFinite` | flash_attn/flash_attn_triton_og.py:72-81 | every visited block leaves each row a visible key |
| `OlderKernels.StepKeepsInv` | flash_attn/flash_attn_triton_og.py:80-104 | the (m, l) step keeps l exp(m) the sum of weights and the accumulator normalised |
| `OlderKernels.ForwardTile` | flash_attn/flash_attn_triton_og.py:64-104 | a tile ends with the softmax output and l exp(m) = row sum, without a final rescaling |
| `OlderKernels.Forward` | flash_attn/flash_attn_triton_og.py:51-117 | the grid saves l, m and the output for every row, whatever the scale |
| `OlderKernels.Preprocess` | flash_attn/flash_attn_triton_og.py:130-141 | dO is divided by l, and delta with the divided dO is rowsum(P o dP) / l |
| `OlderKernels.SameScoreGradient` | flash_attn/flash_attn_triton_og.py:217-230 | the unnormalised p times the pre-divided differences is the same score gradient |
| `OlderKernels.GradientTile` | flash_attn/flash_attn_triton_og.py:215-230 | a tile's ds is the score gradient and its p is l times the softmax |
| `OlderKernels.BackwardColumn` | flash_attn/flash_attn_triton_og.py:190-245 | one column block stores its dV and dK and adds its part to dQ |
| `OlderKernels.Backward` | flash_attn/flash_attn_triton_og.py:189-245 | the same dQ, dK and dV as the log-sum-exp form |
| `OlderKernels.ForwardThenBackward` | flash_attn/flash_attn_triton_og.py:248-362 | the older kernels in sequence give softmax attention and its gradient |
| `BlockMN.NBlockRangeBounds` | hopper/block.h:21-45 | the truncating range formula means exactly three interval conditions on the key block |
| `BlockMN.MBlockRangeBounds` | hopper/block.h:82-100 | the same for the backward range |
| `BlockMN.VisitedIffTouchesWindow` | hopper/block.h:15-60 | a key block is visited iff it starts before the last key and its tile holds a pair of the window |
| `BlockMN.VisiblePairIsVisited` | hopper/block.h:15-60 | every visible pair, packed rows included, lies in a visited tile |
| `BlockMN.ForwardBackwardDual` | hopper/block.h:82-100 | n is in the range of m iff m is in the range of n |
| `BlockMN.SplitsPartition` | hopper/block.h:47-58 | each block of the range belongs to exactly one split and splits add no block |
| `BlockMN.SplitsAreEven` | hopper/block.h:52-54 | no split holds more than an even share of the range, rounded up |
| `BlockMN.PackedSplitsPartition` | hopper/block.h:48-55 | the same through the packed 16-bit fields of the split index |
| `BlockMN.NewKeysCoverSplit` | hopper/block.h:62-78 | an appended-key block is in the range iff it holds an appended row whose position is in the split |
| `BlockMN.MaskFreeMiddle` | hopper/block.h:103-135 | between the two bounds every pair of the tile is inside the window, packed rows included |
| `BlockMN.MaskFreeSlack` | hopper/block.h:103-135 | exactly how conservative the two bounds are: one column each |
| `BlockMN.TileQueries` | hopper/block.h:26-28 | the queries of a packed row tile are exactly those between the two divided bounds |
| `TileMask.RowMaskIsExact` | hopper/mask.h:66-127 | the row-wise mask sets a score to minus infinity iff its pair is outside the window or beyond the keys |
| `TileMask.ColumnMaskIsExact` | hopper/mask.h:128-161 | the same for the SwapAB form, which compares rows with column-dependent limits |
| `TileMask.NoMaskIsExact` | hopper/mainloop_fwd_sm90_tma_gmma_ws.hpp:1220-1227 | leaving the mask out is right in the iterations that do so |
| `TileMask.ForwardMasks` | hopper/mainloop_fwd_sm90_tma_gmma_ws.hpp:1307-1336 | the four groups of iterations handle every block of the range once, last to first, each masks exactly the pairs outside the window, and a block goes without mask exactly between the two bounds |
| `TileMask.SplitRangeIsInside` | hopper/block.h:47-58 | the range of any split is one the main loop accepts |
| `TileMask.EndMaskIsExact` | hopper/mainloop_bwd_sm90_tma_gmma_ws.hpp:1017-1025 | masking only the end of the keys is right between the two backward bounds |
| `TileMask.BackwardMasks` | hopper/mainloop_bwd_sm90_tma_gmma_ws.hpp:1003-1033 | the backward iterations handle every query block once in order, each masks exactly the pairs outside the window, and the window mask is left out exactly between the two bounds |
| `TileMask.BackwardSlack` | hopper/mainloop_bwd_sm90_tma_gmma_ws.hpp:1003-1033 | exactly how conservative the two backward bounds are |
| `CallerToTiles.ForwardAttendsWindow` | hopper/mainloop_fwd_sm90_tma_gmma_ws.hpp:1307-1336 | over the visited range the iterations leave a score iff its pair is in the window, in tiles that are not visited too |
| `CallerToTiles.ForwardForCaller` | hopper/flash_api.cpp:796-805 | from a caller's settings: a pair is admitted iff some iteration of its query tile handles its key block and does not mask it |
| `CallerToTiles.ForwardSplitsForCaller` | hopper/block.h:47-58 | over all splits of a query tile, with a packed count or without: a pair is admitted iff some split's iterations attend to it, and no two splits attend to the same pair |
| `CallerToTiles.BackwardForCaller` | hopper/flash_api.cpp:1360-1365 | the same for the iterations of a key tile in the backward |
| `WindowNormalization.NormalizeForward` | hopper/flash_api.cpp:796-805 | the successive assignments of the forward equal the specification function |
| `WindowNormalization.NormalizeBackward` | hopper/flash_api.cpp:1360-1365 | the same for the backward |
| `WindowNormalization.SetParams` | hopper/flash_api.cpp:146-159 | the kernel flags and window fields from the rewritten window: local iff it excludes a pair and is not causal, causal iff it is the causal mask, no side wider than the matrix |
| `WindowNormalization.ForwardPreservesMask` | hopper/flash_api.cpp:796-805 | for all lengths below the maxima the kernel admits exactly the caller's pairs |
| `WindowNormalization.BackwardPreservesMask` | hopper/flash_api.cpp:1360-1365 | the backward admits the caller's pairs, the forward's pairs, and its recomputed flag agrees |
| `WindowNormalization.ParamsSuitTiles` | hopper/flash_api.cpp:146-159 | a local window is never empty, a causal kernel gets right = 0, and no kernel is both |
| `WindowNormalization.ForwardFlagsAreExact` | hopper/flash_api.cpp:796-805 | from the caller's settings the forward's flags are local iff some pair is excluded and the mask is not causal, and the causal flag is dropped only where it excludes nothing |
| `WindowNormalization.BackwardFlagsAreExact` | hopper/flash_api.cpp:1360-1372 | the same for the backward, and the flags that pick its block sizes are the kernel's |
| `WindowNormalization.ForwardParams` | hopper/flash_api.cpp:146-159 | rewriting and set_params_fprop together give a kernel that admits exactly the caller's pairs, with exact flags |
| `WindowNormalization.BackwardParams` | hopper/flash_api.cpp:1360-1365 | the same for the backward |
| `WindowNormalization.ResolveWindow` | FA4_fp32/interface.py:274-294 | the reassignments equal the specification function, whose result is canonical without a mask_mod |
| `WindowNormalization.CanonicalIsUnique` | FA4_fp32/interface.py:274-277 | two canonical forms that keep the same pairs are the same |
| `WindowNormalization.ResolvedIsCanonical` | FA4_fp32/interface.py:279-294 | without a mask_mod the result is the canonical form of the caller's mask, or of causal or full attention for crossed sides; with one both flags are off and the sides pass through |
| `WindowNormalization.ResolvePreservesMaskIff` | FA4_fp32/interface.py:274-294 | on a q-by-k matrix the resolved settings keep the mask iff the window's sides do not cross, or, with a mask_mod, iff causal flag and window exclude no pair |
| `WindowNormalization.ResolvePreservesEveryMaskIff` | FA4_fp32/interface.py:274-294 | the same over all lengths: with a mask_mod only for unbounded non-causal settings |
| `WindowNormalization.PassesResolveAlikeIff` | FA4_fp32/interface.py:458-460 | with a mask_mod, forward and backward resolve to the same flags iff the backward's are off |
| `WindowNormalization.DroppedCausalExample` | FA4_fp32/interface.py:279-280 | causal with a mask_mod: a pair the forward's built-in mask admits and the backward's does not |
| `WindowNormalization.CrossedWindowExample` | FA4_fp32/interface.py:283-285 | a concrete window that admits nothing and is resolved to full attention |
| `GqaTicketStore.SlotInAllocation` | hopper/flash_api.cpp:1539-1545 | every flag offset lies inside the allocated semaphores |
| `GqaTicketStore.SlotsAreDistinct` | hopper/epilogue_bwd.hpp:458-464 | different tiles use different semaphores |
| `GqaTicketStore.CtaHoldsItsTurn` | hopper/epilogue_bwd.hpp:425-427 | a CTA is the holder of turn h mod q at its key/value head's tile |
| `GqaTicketStore.OneAdderPerTile` | hopper/epilogue_bwd.hpp:463-484 | at most one CTA adds to an accumulator tile |
| `GqaTicketStore.AddsNextTerm` | hopper/epilogue_bwd.hpp:467-482 | an addition extends the element's fold by the next query head |
| `GqaTicketStore.NextKeepsInv` | hopper/epilogue_bwd.hpp:455-515 | every step of every CTA keeps: semaphores count finished turns, only the CTA in turn adds, elements are folds |
| `GqaTicketStore.NeverSticks` | hopper/epilogue_bwd.hpp:463-515 | while some CTA is unfinished, some CTA can step |
| `GqaTicketStore.NextDoesOneStep` | hopper/epilogue_bwd.hpp:455-515 | every step does one unit of a fixed amount of work |
| `GqaTicketStore.EveryRunFoldsInOrder` | hopper/epilogue_bwd.hpp:455-515 | every interleaving ends, after the same number of steps, with dV and dK equal to one left fold over heads 0..q-1 for any addition |
| `GqaTicketStore.EveryRunListsHeads` | hopper/epilogue_bwd.hpp:425-484 | when CTAs contribute their names and the addition concatenates, every complete run leaves in each element the CTAs of its key block and batch entry, once each, from head hk q to hk q + q - 1 |
| `GqaTicketStore.Execute` | hopper/epilogue_bwd.hpp:455-515 | a launch under any scheduler terminates with that fold |
| `RingPipeline.WaitIsExact` | AI/racecheck_repro_1d_bulk.py:53 | the parity test of a lane passes iff its block's copy has landed |
| `RingPipeline.AcquireIsExact` | AI/racecheck_repro_1d_bulk.py:43 | the producer's parity test passes iff its stage has been released |
| `RingPipeline.ReadsAreFresh` | AI/racecheck_repro_1d_bulk.py:53-58 | a reading lane sees its block's data and no copy writes or is issued to its stage |
| `RingPipeline.StageToFillIsFree` | AI/racecheck_repro_1d_bulk.py:43-48 | the stage the producer fills is idle and holds no block still in use |
| `RingPipeline.NextKeepsInv` | AI/racecheck_repro_1d_bulk.py:40-59 | every step of producer, copies and lanes keeps the invariant |
| `RingPipeline.NeverSticks` | AI/racecheck_repro_1d_bulk.py:40-59 | until everything is copied some step is enabled |
| `RingPipeline.NextDoesOneStep` | AI/racecheck_repro_1d_bulk.py:40-59 | every step does one unit of a fixed amount of work |
| `RingPipeline.EveryRunCopies` | AI/racecheck_repro_1d_bulk.py:40-59 | every interleaving ends after the same number of steps with dst equal to src, for any number of blocks, stages and lanes |
| `RingPipeline.Execute` | AI/racecheck_repro_1d_bulk.py:24-59 | the kernel under any scheduler terminates with dst equal to src |
| `StableSort.Argsort` | flash_attn/flash_blocksparse_attn_interface.py:25-26 | the indices once each, by key and then by index |
| `StableSort.ArgsortIsUnique` | flash_attn/flash_blocksparse_attn_interface.py:25-31 | only one stable order exists, whatever algorithm finds it |
| `StableSort.ArgsortInverts` | flash_attn/flash_blocksparse_attn_interface.py:26 | the argsort of a permutation is its inverse |
| `StableSort.Nonzero` | flash_attn/bert_padding.py:114 | exactly the nonzero positions, strictly increasing |
| `BlockMaskEncoder.LastColIsLast` | flash_attn/flash_blocksparse_attn_interface.py:27 | the last index of the stable ascending sort is the row's last nonzero column |
| `BlockMaskEncoder.FirstColIsFirst` | flash_attn/flash_blocksparse_attn_interface.py:31 | the first index of the stable descending sort is the row's first nonzero column |
| `BlockMaskEncoder.RowsInvert` | flash_attn/flash_blocksparse_attn_interface.py:25-26 | the two row index arrays are inverse permutations of each other |
| `BlockMaskEncoder.FlagCellsAreDistinct` | flash_attn/flash_blocksparse_attn_interface.py:28-37 | the in-place flag writes of different rows never hit the same cell |
| `BlockMaskEncoder.AddAt` | flash_attn/flash_blocksparse_attn_interface.py:36-37 | the gather-add-write update adds once to every named cell and changes no other |
| `BlockMaskEncoder.ConvertBlockmask` | flash_attn/flash_blocksparse_attn_interface.py:7-39 | the sorted and flagged array is the encoding: per column the nonzero rows times four with their flags, then -1; a causal mask or a mask without columns is an error |
| `BlockMaskEncoder.ColumnIsSorted` | flash_attn/flash_blocksparse_attn_interface.py:14-15 | the rows of a column strictly increase and -1 comes only after them |
| `BlockMaskEncoder.EntryTells` | flash_attn/flash_blocksparse_attn_interface.py:16-18 | an entry names a nonzero block and its two bits say first and last exactly |
| `BlockMaskEncoder.RoundTrip` | flash_attn/flash_blocksparse_attn_interface.py:7-39 | decoding rebuilds the mask |
| `BlockMaskEncoder.OneFlagOfEachKind` | flash_attn/flash_blocksparse_attn_interface.py:36-38 | a row has a first (last) flag iff it has a block, exactly one, in its first (last) column |
| `IndexFirstAxis.IndexPut` | flash_attn/bert_padding.py:42-53 | the scatter into zeros leaves at each index one of its values and zero elsewhere |
| `IndexFirstAxis.GatherOfScatter` | flash_attn/bert_padding.py:42-61 | gathering what was written at distinct indices gives the values back |
| `IndexFirstAxis.ScatterAdd` | flash_attn/bert_padding.py:81-92 | the in-place accumulation adds every gradient to its index |
| `IndexFirstAxis.AddedIsAdjoint` | flash_attn/bert_padding.py:67-92 | it is the gradient of (gather, identity), repeated indices included |
| `IndexFirstAxis.ScatterIsAdjointIff` | flash_attn/bert_padding.py:21-35 | the overwriting scatter is the adjoint of the gather iff the indices are distinct |
| `BertPadding.IndexOfToken` | flash_attn/bert_padding.py:111-116 | entry cu[b] + k of the indices is batch b's k-th selected token |
| `BertPadding.SegmentIsBatch` | flash_attn/bert_padding.py:111-128 | segment b of the packed tensor is exactly the tokens of batch b that the masks select, in order, with an unused mask or without |
| `BertPadding.IndicesSelect` | flash_attn/bert_padding.py:111-114 | the indices are strictly increasing and hold b seqlen + s iff the masks select token (b, s) |
| `BertPadding.SelectsEither` | flash_attn/bert_padding.py:111 | for 0-1 masks a token is selected iff one of the masks selects it |
| `BertPadding.LengthsCountTokens` | flash_attn/bert_padding.py:112-116 | cu_seqlens steps by the selected tokens of each batch, max_seqlen is the longest step, seqused counts the attention mask, and only an empty batch is an error |
| `BertPadding.LengthsAgreeIff` | flash_attn/bert_padding.py:111-116 | cu_seqlens ends at the number of indices iff integer masks are disjoint (always for boolean masks) |
| `BertPadding.SequsedIsSegmentIff` | flash_attn/bert_padding.py:112-127 | seqused[b] is the length of segment b iff the unused mask adds no token to row b |
| `BertPadding.OverlappingMasksExample` | flash_attn/bert_padding.py:111-128 | one token that both integer masks select: one packed row, cu_seqlens [0, 2], seqused [1] |
| `BertPadding.PadInput` | flash_attn/bert_padding.py:204-218 | the padded tensor is the reshaped scatter |
| `BertPadding.PadOfUnpad` | flash_attn/bert_padding.py:122-128 | pad(unpad(x)) is x with the tokens that the masks do not select zeroed |
| `BertPadding.UnpadOfPad` | flash_attn/bert_padding.py:204-218 | unpad(pad(y)) is y |
| `ConcatenatedSequences.SequenceIsRun` | flash_attn/bert_padding.py:183-200 | each sequence is a contiguous run inside one row, starting where the row's earlier lengths end |
| `ConcatenatedSequences.SegmentIsSequence` | flash_attn/bert_padding.py:183-200 | segment i of the packed tensor is that stretch of its row of the input |
| `ConcatenatedSequences.IndicesArePrefixes` | flash_attn/bert_padding.py:183-188 | the indices are strictly increasing and hold b seqlen + u iff u is below the row's total |
| `ConcatenatedSequences.MaxSeqlenIsLongest` | flash_attn/bert_padding.py:186-189 | max_seqlen is the length of a sequence and bounds them all; no sequence at all is an error |
| `ConcatenatedSequences.PadOfConcatenated` | flash_attn/bert_padding.py:183-218 | padding the result restores each row below its total and zeroes the rest |
| `ConcatenatedSequences.RunsTileRow` | flash_attn/bert_padding.py:183-190 | the runs of a row tile its first SumOf(lens[b]) positions: each position lies in exactly one, at one offset |
| `ConcatenatedSequences.EverySequenceHasARow` | flash_attn/bert_padding.py:186-187 | every sequence comes from one row and column, numbered in reading order |
| `ConcatenatedSequences.PackedLengthIff` | flash_attn/bert_padding.py:183-190 | cu_seqlens ends at the number of indices iff every row's lengths fit in the row |
| `PackGqaLayout.PackedRowIsQuery` | hopper/epilogue_fwd.hpp:170-196 | packed row r of key/value head hk addresses query r / q of head hk q + r mod q |
| `PackGqaLayout.GroupsCoverHeads` | hopper/epilogue_fwd.hpp:171 | the groups cover the query heads exactly |
| `PackGqaLayout.LayoutIsBijection` | hopper/epilogue_fwd.hpp:170-196 | packed rows and (head, query) pairs correspond one to one, within bounds on both sides |
| `PackGqaLayout.StoredExactlyOnce` | hopper/epilogue_fwd.hpp:431-450 | over all blocks every (head, query) is stored by exactly one thread and nothing outside is |
| `PackGqaLayout.StoreZeroBlock` | hopper/epilogue_fwd.hpp:431-450 | one CTA clears exactly the rows of its tile that exist |
| `PackGqaLayout.StoreZero` | hopper/epilogue_fwd.hpp:409-450 | all CTAs together clear every head and query of the sequence and no other cell |
| `PaddedAllocation.TotalsAgree` | FA4_fp32/interface.py:1243-1245 | the two front ends' formulas give the same total |
| `PaddedAllocation.TotalIsTight` | hopper/flash_api.cpp:1391-1395 | the total is whole blocks and less than a block above the tokens plus one block for each sequence |
| `PaddedAllocation.PaddedSequencesAreDisjoint` | hopper/seqlen.h:44-48 | padded sequences start on block boundaries, do not touch each other and stay in the allocation |
| `PaddedAllocation.AllocationSuffices` | hopper/flash_api.cpp:1391-1395 | the lengths rounded up to blocks sum to at most the allocated total |

## Left out

- Floating-point rounding, dtype conversion, softcap, dropout and quantisation: scores, outputs and gradients are reals; only the semaphore protocol keeps the addition arbitrary.
- ForwardKernel.Forward: bias entries are finite reals. The kernel also accepts additive masks of minus infinity; a row whose scores in its first visited block are all minus infinity then gets NaN, which is not modelled.
- BackwardScaleCondition.BackwardIff: the backward is taken by itself, given the references and delta it needs, with dQ in sequence; the atomic branch adds the same products in another order.
- 32-bit overflow of offsets, token counts and encoded row indices: integers are unbounded.
- The exponential itself: the proofs use only that it is positive and non-decreasing; exp and log of running references are exact in logarithmic form.
- Batch and head strides of the Triton kernels: one head of one batch entry is modelled; the grid runs program after program, except for the parallel backward, where the order of programs and of atomic adds is free.
- The EVEN_M, EVEN_N and EVEN_HEADDIM load and store variants: an unmasked access under these conditions reads and writes the same elements as the masked one.
- Memory visibility: steps of the two protocols are atomic and sequentially consistent, and fences and named barriers are not modelled. The barrier and pipeline classes are not part of this model; parity barriers follow the PTX ISA, section "Parallel Synchronization and Communication Instructions: mbarrier". Nor is the producer's final drain.
- Tiles of a variable-length batch without work, which the ticket protocol's CTAs skip for all heads of a group alike.
- Scheduling of CTAs: the ticket protocol assumes that every CTA of the launch, with all query heads of a group, gets to run.
- attention_chunk and sink tokens in ranges, masks and window rewriting.
- The main loops beyond their choice of masks, the tile schedulers, the combine kernel, paged keys, rotary embedding and tile-size tables.
- GPU layouts (swizzles, TMA descriptors, register fragments): a mask cell is a row and a column split into a thread's offset and a remainder; stores are per element.
- Block masks with entries other than 0 and 1, which the encoder's documentation excludes.
- IndexFirstAxis.ScatterIsAdjointIff: features of a row are independent, so one feature per row is modelled; which of two writes to one index survives is left open.
- BertPadding.SegmentIsBatch: stated when the two masks add up to a 0-1 mask; `LengthsAgreeIff` says exactly when they do.
- PackGqaLayout.StoreZero: writes cells by head and query; that these are the packed addresses is `PackedRowIsQuery`. The O tensor's zeros are stored by the same rows and are not modelled.
- Autograd wrappers, operator registration, shape and dtype checks, compile caches, heuristics and benchmarks.
