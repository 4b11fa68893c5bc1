# oneDNN code generation helpers, modelled in Dafny

This project models four pieces of oneDNN's kernel-generation and kernel-setup code and proves properties of them.

- **GEMM k-loop** (`k_loop.cxx`). The Intel GPU GEMM generator stages A and B through shared local memory (SLM).
  - The schedule arithmetic:
    - the SLM ring depth and its lookaheads;
    - the store and load address increments that wrap around the ring;
    - the k-interleave step;
    - the incremental remainder load.
  - The synchronisation the k-loop emits around the ring: fences, barrier messages and barrier waits. They are modelled as an abstract trace of emitted instructions.
  - The generator state around that synchronisation: the lazily built barrier header, the fence temporary, the last compared loop threshold and the read-suppression workaround.
  - The one-way switches between the main path and the remainder path.
- **brgemm convolution** (`jit_brgemm_conv.cpp`, the AArch64 forward convolution on batch-reduce GEMM). It covers:
  - the clipping of an output-width block against the left and right padding;
  - the M mask of a descriptor;
  - the virtual-padding tables;
  - the batch-size slot table;
  - the registry of unique kernel ranges for padding compensation;
  - the layout of one brgemm batch.
- **64-bit emulation in nGEN** (`ngen_emulation.hpp`). Some Intel GPUs have no native 64-bit integer instructions. nGEN then emits sequences of 32-bit instructions. The model covers:
  - the per-hardware strategy;
  - the splitting of immediates;
  - the strength reduction of multiplications by an immediate;
  - the emitted shift-left, shift-right and add sequences.

  Each emitted instruction is a function on a register file of 32-bit words. The words are held as `int`s with explicit wrap-around. The model proves what each emitted sequence computes, or shows where it does not compute the 64-bit result.
- **brgemm matmul** (`brgemm_matmul_utils.hpp`). It covers the batch-broadcast descriptor (`set_params`) and three small layout helpers.

Code that works in place keeps that form:
- Arrays stay arrays: the M mask, the batch-size table, the vpad tables, the batch elements and the descriptor's `batch_dims`/`gb_off`.
- State the source updates through a reference is a class:
  - the synchronisation state of the k-loop;
  - the remainder flags;
  - the kernel registry;
  - the broadcast descriptor.
- The source's loops are `while` loops with invariants.

Each such method is proved against a function that says what it computes. The properties are then proved about those functions.

Files:
- `common.dfy`: result types, `div_up` and C truncating division, first-seen deduplication.
- `kloop_sched.dfy`, `kloop_sync.dfy`, `kloop_rem.dfy`: the k-loop.
- `conv_range.dfy`, `conv_mask.dfy`, `conv_vpad.dfy`, `conv_batch.dfy`, `conv_init.dfy`, `conv_kernels.dfy`: the convolution.
- `emulation.dfy`: the emulation.
- `matmul.dfy`: the matmul descriptor.

## Model

| member | source | states |
|---|---|---|
| Common.DivUp | src/cpu/aarch64/jit_brgemm_conv.cpp:600-605 | `div_up(a, b)` is the ceiling of a / b: r·b ≥ a and (r−1)·b < a |
| Common.TDiv | src/cpu/x64/matmul/brgemm_matmul_utils.hpp:297 | C division truncates toward zero: it is Euclidean division for non-negative operands, and its sign follows the operands' signs |
| Common.Dedup | src/cpu/aarch64/jit_brgemm_conv.cpp:988-999 | first-seen deduplication keeps exactly the elements of the input, with no repeats, and is no longer than the input |
| Common.DedupSnoc | src/cpu/aarch64/jit_brgemm_conv.cpp:988-999 | appending an element grows the deduplicated sequence by that element exactly when it is new |
| KLoopSched.SlmBufferLA | src/gpu/intel/jit/gemm/generator/pieces/k_loop.cxx:275-283 | the ring depth 0…4 maps to lookahead depth / 2 (0, 0, 1, 1, 2), which is below the depth; any other depth stops the generator |
| KLoopSched.SlmSchedule | src/gpu/intel/jit/gemm/generator/pieces/k_loop.cxx:275-427 | the SLM request table: it succeeds exactly for depths 0…4 and, when A and B are both staged, equal A/B load lookaheads in the main loop and in the remainder, and (when A and B load different k sizes) an A lookahead that is the same in both; an after-store step exists exactly at depth ≥ 2 and a second one at depth 4; the store runs every unrollKSLM iterations over slmCopies variants; the remainder load and store requests differ from the main ones only by using the remainder reload lookahead, and the remainder store has no duration |
| KLoopSched.AfterStoresPrecedeReload | src/gpu/intel/jit/gemm/generator/pieces/k_loop.cxx:1160-1167 | each after-store step runs one (two) SLM blocks after the store and still before the register reload; the load runs no later than the store |
| KLoopSched.RemActiveMeaning | src/gpu/intel/jit/gemm/generator/pieces/k_loop.cxx:307-308 | `X_remActive(h)` holds exactly when the loop ends before the next multiple of the load size |
| KLoopSched.Copy | src/gpu/intel/jit/gemm/generator/pieces/k_loop.cxx:316-317 | the register copy lies in [0, copies); outside the remainder it is (h / load) mod copies |
| KLoopSched.SlmBuffer | src/gpu/intel/jit/gemm/generator/pieces/k_loop.cxx:327 | the SLM buffer of an iteration lies in [0, slmBuffers) |
| KLoopSched.StoreIncAdvances | src/gpu/intel/jit/gemm/generator/pieces/k_loop.cxx:648-650 | the store increment at buffer b moves the store address to buffer (b + 1) mod slmBuffers |
| KLoopSched.StoreIncTelescopes | src/gpu/intel/jit/gemm/generator/pieces/k_loop.cxx:648-650 | n consecutive store increments from buffer b move the address to buffer (b + n) mod slmBuffers |
| KLoopSched.StoreIncCycle | src/gpu/intel/jit/gemm/generator/pieces/k_loop.cxx:648-650 | any slmBuffers consecutive store increments sum to 0 |
| KLoopSched.KInc | src/gpu/intel/jit/gemm/generator/pieces/k_loop.cxx:346-356 | without k-interleaving the step is returned unchanged |
| KLoopSched.KIncGlobal | src/gpu/intel/jit/gemm/generator/pieces/k_loop.cxx:346-356 | under k-interleaving the widened step skips the other threads' chunks: the thread's global k advances by exactly the requested step, or by one chunk when the step exceeds a chunk |
| KLoopSched.KaInc | src/gpu/intel/jit/gemm/generator/pieces/k_loop.cxx:748-757 | with SLM, `ka_inc` is the load size, or the load size minus the ring size exactly when (h + inc) mod ring < inc; without SLM and without k-interleaving it is the load size |
| KLoopSched.KaIncWraps | src/gpu/intel/jit/gemm/generator/pieces/k_loop.cxx:748-757 | with SLM, no interleaving and a load no larger than the ring, the address stays inside the ring: (h mod ring) + ka_inc = (h + inc) mod ring |
| KLoopSched.CheckUnroll | src/gpu/intel/jit/gemm/generator/pieces/k_loop.cxx:1313 | the sequencer's unroll is accepted exactly when it equals the strategy's unrollK |
| KLoopRem.RemLoadInc | src/gpu/intel/jit/gemm/generator/pieces/k_loop.cxx:1751-1828 | the incremental remainder load emits max(kx_slm, 1) counter immediates (the first guarded by kx_slm > 1, then one per remaining step) adding up to unrollKSLM·kSLMSign. It emits kx_slm address increments (plus the closing unrollKSLM when addresses are kept together). With one address set they add up to kx_stride |
| KLoopRem.RemFlags.ActivateABRemainder | src/gpu/intel/jit/gemm/generator/pieces/k_loop.cxx:1937-1952 | a request matching a flag is dropped; deactivating an active A/B remainder fails and changes nothing; otherwise the requested flags take the new value and it fails exactly when both sides use descriptor remainders; an active flag never turns off; the SLM flag is untouched |
| KLoopRem.RemFlags.ActivateSLMRemainder | src/gpu/intel/jit/gemm/generator/pieces/k_loop.cxx:2087-2099 | a request matching the SLM flag changes nothing; deactivating it fails while a late k remainder is in use; otherwise the flag takes the new value; A/B flags are untouched |
| KLoopRem.RemFlags.ResetForShortLoop | src/gpu/intel/jit/gemm/generator/pieces/k_loop.cxx:1480 | the short loop starts with every remainder flag off |
| KLoopSync.BarrierKindsByType | src/gpu/intel/jit/gemm/generator/pieces/k_loop.cxx:191-229 | a signal barrier sends a message and never waits, a wait barrier waits and never sends, a normal barrier does both; with an SLM fence the trace starts with fence, fence wait and has no other fence |
| KLoopSync.DepthProtocol | src/gpu/intel/jit/gemm/generator/pieces/k_loop.cxx:1191-1268 | at every ring depth 1…4, what the store, after-store and after-store-2 steps emit after the stores is a fence and its wait (possibly twice), then all barrier messages, then all barrier waits |
| KLoopSync.DepthOneBarrierBefore | src/gpu/intel/jit/gemm/generator/pieces/k_loop.cxx:1230-1233 | at depth 1 a full barrier (message and wait) also precedes the store |
| KLoopSync.SyncState.TryAlloc | src/gpu/intel/jit/gemm/generator/pieces/k_loop.cxx:166-168 | a fresh register while the allocator has one, otherwise an invalid register; nothing else changes |
| KLoopSync.SyncState.GetFenceTemp | src/gpu/intel/jit/gemm/generator/pieces/k_loop.cxx:166-175 | a fresh register, else the barrier header (then marked not ready); it fails exactly when neither exists |
| KLoopSync.SyncState.ReleaseFenceTemp | src/gpu/intel/jit/gemm/generator/pieces/k_loop.cxx:177-180 | the temporary goes back to the allocator unless it is invalid or the barrier header |
| KLoopSync.SyncState.SlmFenceIssue | src/gpu/intel/jit/gemm/generator/pieces/k_loop.cxx:183-187 | emits exactly one fence and fails exactly when no register and no header exist; when a register was free, the free count is unchanged afterwards |
| KLoopSync.SyncState.FencePair | src/gpu/intel/jit/gemm/generator/pieces/k_loop.cxx:193-196 | a fence followed by its wait, with the temporary released |
| KLoopSync.SyncState.AllocBarrierHeader | src/gpu/intel/jit/gemm/generator/pieces/k_loop.cxx:1881-1887 | allocates the header only when there is none, and a new header is not ready; an existing one is kept as it is |
| KLoopSync.SyncState.GetBarrierHeader | src/gpu/intel/jit/gemm/generator/pieces/k_loop.cxx:1890-1903 | emits `barrierheader` only when the header is not ready, and returns a ready, live header; fails exactly when no register is left or r0 is not a GRF and a build is needed |
| KLoopSync.SyncState.UnnamedSignal | src/gpu/intel/jit/gemm/generator/pieces/k_loop.cxx:199-210 | the unnamed signal half emits an optional fence pair and then one message, always with a live header; it fails only when registers run out or r0 is not a GRF |
| KLoopSync.SyncState.NamedMsgs | src/gpu/intel/jit/gemm/generator/pieces/k_loop.cxx:220-221 | one message per named barrier |
| KLoopSync.SyncState.Waits | src/gpu/intel/jit/gemm/generator/pieces/k_loop.cxx:211-212 | one wait, or one wait per named barrier |
| KLoopSync.SyncState.SignalPart | src/gpu/intel/jit/gemm/generator/pieces/k_loop.cxx:198-221 | the signalling part emits an optional fence pair, then one message per barrier |
| KLoopSync.SyncState.KLoopBarrier | src/gpu/intel/jit/gemm/generator/pieces/k_loop.cxx:191-229 | emits exactly the fence, message and wait events of `BarrierKinds`, every unnamed message with a live header; a plain wait always succeeds; with a spare register and r0 a GRF it succeeds |
| KLoopSync.SyncState.WrDeps | src/gpu/intel/jit/gemm/generator/pieces/k_loop.cxx:1185-1186 | the read-dependency workaround emits no synchronisation |
| KLoopSync.SyncState.Slm1x2xFencedBarrier | src/gpu/intel/jit/gemm/generator/pieces/k_loop.cxx:1175-1189 | a normal barrier, fenced only for deep global buffering without the fence workaround |
| KLoopSync.SyncState.Stores | src/gpu/intel/jit/gemm/generator/pieces/k_loop.cxx:1240-1243 | one SLM store per staged matrix |
| KLoopSync.SyncState.Sums | src/gpu/intel/jit/gemm/generator/pieces/k_loop.cxx:1245-1246 | the sums emit no synchronisation |
| KLoopSync.SyncState.PreStore | src/gpu/intel/jit/gemm/generator/pieces/k_loop.cxx:1230-1238 | the synchronisation before the stores: the fenced barrier at depth 1, nothing at 2…4 |
| KLoopSync.SyncState.StoreSync | src/gpu/intel/jit/gemm/generator/pieces/k_loop.cxx:1248-1267 | the synchronisation after the stores: a fenced normal barrier, a fence pair, or a fenced signal, by depth |
| KLoopSync.SyncState.DoSLMStore | src/gpu/intel/jit/gemm/generator/pieces/k_loop.cxx:1227-1268 | nothing without staged matrices; a depth outside 1…4 fails; otherwise the pre-store synchronisation, the stores and the post-store synchronisation, in that order |
| KLoopSync.SyncState.DoSLMAfterStore | src/gpu/intel/jit/gemm/generator/pieces/k_loop.cxx:1203-1225 | emits the depth's after-store synchronisation |
| KLoopSync.SyncState.DoSLMAfterStore2 | src/gpu/intel/jit/gemm/generator/pieces/k_loop.cxx:1191-1201 | a wait at depth 4, nothing at 1…3, failure at any other depth |
| KLoopSync.SyncState.JumpIfLT | src/gpu/intel/jit/gemm/generator/pieces/k_loop.cxx:1435-1442 | emits a compare exactly when the threshold differs from the last one, always the jump, and records the threshold; the jump tests "K < thresh" for the current K if and only if the compare was emitted or nothing wrote the flag or K since the compare with the repeated threshold |
| KLoopSync.SyncState.OffsetCounter | src/gpu/intel/jit/gemm/generator/pieces/k_loop.cxx:1352-1354 | K moves and `lastThresh` is kept, so the flag no longer reflects any compare |
| KLoopSync.SyncState.LoopStart | src/gpu/intel/jit/gemm/generator/pieces/k_loop.cxx:1355-1390 | writes the flag and K without touching `lastThresh`, so the flag reflects no compare afterwards; its only synchronisation is one split-barrier signal, in the sub-loop or as a task; it fails only when that signal runs out of registers |
| KLoopSync.SyncState.LoopEnd | src/gpu/intel/jit/gemm/generator/pieces/k_loop.cxx:1391-1434 | keeps `lastThresh`; the flag reflects no compare afterwards exactly when the barrier sub-loop or a peel re-entry is configured, and is untouched otherwise; its synchronisation is the sub-loop's wait then signal when split, one full barrier otherwise, and nothing without the sub-loop |
| KLoopSync.SyncState.SubloopReentry | src/gpu/intel/jit/gemm/generator/pieces/k_loop.cxx:1393-1413 | the sub-loop re-entry sets the flag and emits exactly the sub-loop's barriers |
| KLoopSync.SyncState.SubloopBarriers | src/gpu/intel/jit/gemm/generator/pieces/k_loop.cxx:1400-1404 | a split barrier waits and then signals, otherwise one full barrier; the flag's meaning is kept |
| KLoopSync.SyncState.PeelReentries | src/gpu/intel/jit/gemm/generator/pieces/k_loop.cxx:1414-1432 | each configured peel sets the flag for its jump, with no synchronisation |
| KLoopSync.SyncState.NotifyMainPathEnd | src/gpu/intel/jit/gemm/generator/pieces/k_loop.cxx:1461-1465 | the outstanding split-barrier wait, and nothing else, with the flag's meaning kept |
| KLoopSync.SyncState.NotifyCooldown | src/gpu/intel/jit/gemm/generator/pieces/k_loop.cxx:1466-1473 | K regains the barrier-free tail without resetting `lastThresh`, so the flag then reflects no compare; the RSWA pairing is forgotten |
| KLoopSync.SyncState.LoopCheck | src/gpu/intel/jit/gemm/generator/pieces/k_loop.cxx:633-635 | the main-loop check moves K without resetting `lastThresh`, so the loop flag then reflects no compare; nothing else changes |
| KLoopSync.SyncState.RemainderFlagWrites | src/gpu/intel/jit/gemm/generator/pieces/k_loop.cxx:1758-1780 | the SLM remainder load writes the loop flag max(kx_slm, 1) times, once per counter immediate of `RemLoadInc`, with no synchronisation; the flag then reflects no compare, and `lastThresh` is reset exactly when `kLoopModifiedFlagAP` does so |
| KLoopSync.SyncState.StartBarrier | src/gpu/intel/jit/gemm/generator/pieces/k_loop.cxx:1370-1383 | the loop start's barrier part signals a split barrier once, in the sub-loop or as a task, and nothing otherwise; it fails only when that signal runs out of registers |
| KLoopSync.SyncState.SavePreLoop | src/gpu/intel/jit/gemm/generator/pieces/k_loop.cxx:1303-1304 | the saved pre-loop state is one the state can always go back to |
| KLoopSync.SyncState.RestorePreLoop | src/gpu/intel/jit/gemm/generator/pieces/k_loop.cxx:1482 | the allocator, barrier header, readiness and `lastThresh` take the saved values; the emitted code stays |
| KLoopSync.SyncState.NotifyShortLoop | src/gpu/intel/jit/gemm/generator/pieces/k_loop.cxx:1477-1485 | the loop is reset and the pre-loop state returns, so `lastThresh` is the saved one and the RSWA pairing is forgotten; its only synchronisation is a split-barrier signal when `splitBarrierAlways` and a periodic split barrier hold; it fails only when that signal runs out of registers |
| KLoopSync.SyncState.NotifyShortLoopEnd | src/gpu/intel/jit/gemm/generator/pieces/k_loop.cxx:1486-1490 | the short loop's outstanding split-barrier wait under the same condition, and nothing else, with the flag's meaning kept |
| KLoopSync.SyncState.ResetForNewLoop | src/gpu/intel/jit/gemm/generator/pieces/k_loop.cxx:1342-1349 | forgets the last threshold and the RSWA pairing, and gives the barrier header back to the allocator |
| KLoopSync.SyncState.DoRSWAA | src/gpu/intel/jit/gemm/generator/pieces/k_loop.cxx:468-472 | emits the workaround and remembers the iteration |
| KLoopSync.SyncState.DoRSWAB | src/gpu/intel/jit/gemm/generator/pieces/k_loop.cxx:474-478 | emits the workaround unless A did it at the same iteration, then forgets the pairing |
| ConvRange.LeftCut | src/cpu/aarch64/jit_brgemm_conv.cpp:600-604 | the `div_up` count of the left cut is exactly the number of leading outputs whose input column is negative |
| ConvRange.RightCut | src/cpu/aarch64/jit_brgemm_conv.cpp:605 | the `div_up` count of the right cut is exactly the number of trailing outputs past the input width |
| ConvRange.CutsAt | src/cpu/aarch64/jit_brgemm_conv.cpp:594-605 | an output of the block reads real input exactly when it lies past the left cut and before the right cut |
| ConvRange.GetOwRange | src/cpu/aarch64/jit_brgemm_conv.cpp:580-609 | ow ≤ ow_s ≤ ow_f ≤ ow + M, and an output o of the block lies in [ow_s, ow_f) exactly when its input column under kw is inside the row; non-empty and full are characterised both ways |
| ConvRange.Pick | src/cpu/aarch64/jit_brgemm_conv.cpp:559-571 | the first (last) kernel column that is non-empty (full), or −1 when none is |
| ConvRange.FullIsNonEmpty | src/cpu/aarch64/jit_brgemm_conv.cpp:565-568 | a full kernel column is non-empty |
| ConvRange.GetKwRange | src/cpu/aarch64/jit_brgemm_conv.cpp:550-577 | kw_s ≤ kw_full_s ≤ kw_full_f ≤ kw_f, with the first and one past the last non-empty (full) column; no non-empty column gives 0, 0; no full column gives kw_full_s = kw_full_f = kw_f |
| ConvRange.KwRangeOrdered | src/cpu/aarch64/jit_brgemm_conv.cpp:550-577 | the four bounds `get_kw_range` yields satisfy 0 ≤ kw_s ≤ kw_full_s ≤ kw_full_f ≤ kw_f ≤ KW |
| ConvRange.KRangeMeaning | src/cpu/aarch64/jit_brgemm_conv.cpp:450-462 | a kernel index lies in the depth/height range [s, f) exactly when its input position lies inside the input |
| ConvMask.MaskRow | src/cpu/aarch64/jit_brgemm_conv.cpp:188-196 | within a blocked row, the real slots all hold the row's flag and the oskip filler slots hold 0 |
| ConvMask.MaskTail | src/cpu/aarch64/jit_brgemm_conv.cpp:198-200 | every slot past the last blocked row is 0 |
| ConvMask.MaskRowsMonotone | src/cpu/aarch64/jit_brgemm_conv.cpp:187-191 | once a row is masked out, every later row is too |
| ConvMask.FillBlockedRow | src/cpu/aarch64/jit_brgemm_conv.cpp:188-196 | one row of the blocked loop extends the filled prefix by that row, keeping the real-output counter's meaning |
| ConvMask.FillBlocked | src/cpu/aarch64/jit_brgemm_conv.cpp:185-200 | with output-spatial blocking every slot of the mask ends up holding `MaskAt`: 1 for the real outputs of rows that start below vM, 0 for filler and tail slots |
| ConvMask.FillTail | src/cpu/aarch64/jit_brgemm_conv.cpp:198-200 | the slots past the last row end up 0, as `MaskAt` says, without disturbing the filled prefix |
| ConvMask.BuildBdMask | src/cpu/aarch64/jit_brgemm_conv.cpp:180-206 | empty without the M mask, otherwise vbrgM entries: all 1 without output-spatial blocking, the row/filler/tail pattern with it |
| ConvVpad.TopVpad | src/cpu/aarch64/jit_brgemm_conv.cpp:967 | zero exactly when the column is not negative, and otherwise the least count of strides that reaches column 0 |
| ConvVpad.BottomVpad | src/cpu/aarch64/jit_brgemm_conv.cpp:968-969 | zero exactly when the span ends inside the input, and otherwise the least count of strides that pulls it back inside |
| ConvVpad.TopVpadCounts | src/cpu/aarch64/jit_brgemm_conv.cpp:967 | output j reads a real column exactly when j is past the top padding |
| ConvVpad.BottomVpadCounts | src/cpu/aarch64/jit_brgemm_conv.cpp:968-969 | the output t places before the last ends inside the input exactly when t covers the bottom padding |
| ConvVpad.VpadExclusive | src/cpu/aarch64/jit_brgemm_conv.cpp:970 | top and bottom padding cannot both be present when the span fits in the input |
| ConvVpad.BlockOkWhenNarrow | src/cpu/aarch64/jit_brgemm_conv.cpp:958-970 | both assertions of a block hold when the block has at most ow_block outputs and its span fits in the input |
| ConvVpad.WriteSlot | src/cpu/aarch64/jit_brgemm_conv.cpp:971-972 | the slot owb·KW + kw receives the pair; the filled prefix grows by one |
| ConvVpad.FillBlock | src/cpu/aarch64/jit_brgemm_conv.cpp:965-973 | the kernel-column loop of one block succeeds exactly when no column has both paddings, and then fills the block's slots |
| ConvVpad.FillTables | src/cpu/aarch64/jit_brgemm_conv.cpp:954-974 | the block loop succeeds exactly when every block's assertions hold, and then every slot holds its pair |
| ConvVpad.PrecomputeVpads | src/cpu/aarch64/jit_brgemm_conv.cpp:951-975 | the two nb_ow·KW tables, with slot i holding the top and bottom padding of block i / KW at column i mod KW; an assertion that fails is an error |
| ConvBatch.BsIdxInRange | src/cpu/aarch64/jit_brgemm_conv.cpp:441-442 | a key of the domain indexes inside the KD·KD·KH·KH table |
| ConvBatch.BsIdxInjective | src/cpu/aarch64/jit_brgemm_conv.cpp:466-470 | distinct keys of the domain have distinct slots |
| ConvBatch.TableLookup | src/cpu/aarch64/jit_brgemm_conv.cpp:467 | the lookup `batchsizes[bs_idx] == -1` is true exactly for an unseen key, and a seen key's value is its first-seen rank |
| ConvBatch.AddKey | src/cpu/aarch64/jit_brgemm_conv.cpp:466-470 | one step of the loop: a new key takes the next rank and the counter grows; a seen key changes nothing |
| ConvBatch.FillPoint | src/cpu/aarch64/jit_brgemm_conv.cpp:451-470 | one output point extends the table to the keys seen so far |
| ConvBatch.FillRow | src/cpu/aarch64/jit_brgemm_conv.cpp:455-471 | one output row extends the table to the keys seen so far |
| ConvBatch.FillAll | src/cpu/aarch64/jit_brgemm_conv.cpp:449-472 | the micro-kernel loop numbers the distinct keys of the positive-size points in first-seen order |
| ConvBatch.EmptyTable | src/cpu/aarch64/jit_brgemm_conv.cpp:441-442 | a fresh KD·KD·KH·KH table of −1 describes no key |
| ConvBatch.FillSingle | src/cpu/aarch64/jit_brgemm_conv.cpp:473-476 | without the micro-kernel the one key [0, KD) × [0, KH) gets 0 and the count is 1 |
| ConvBatch.FillBatchSizes | src/cpu/aarch64/jit_brgemm_conv.cpp:441-476 | the table is −1 except at the distinct keys, numbered 0, 1, … in first-seen order, and bs_c is their number; without the micro-kernel one entry gets 0 and bs_c = 1; an error arises only from a failed blocking assertion or a key outside the table |
| ConvInit.Decode | src/cpu/aarch64/jit_brgemm_conv.cpp:74-95 | b_idx = i_icb·k_l + k decodes back to the channel block and the (kd, kh, kw) point |
| ConvInit.BIdxInjective | src/cpu/aarch64/jit_brgemm_conv.cpp:74-95 | distinct visited points have distinct batch positions |
| ConvInit.FinalAtVisited | src/cpu/aarch64/jit_brgemm_conv.cpp:89-112 | the element at a visited point's position is that point's element |
| ConvInit.FirstOffsetsZero | src/cpu/aarch64/jit_brgemm_conv.cpp:96-107 | in offset mode with need_A_B, the element at b_idx 0 has offsets A = B = 0 |
| ConvInit.PtrsStep | src/cpu/aarch64/jit_brgemm_conv.cpp:96-99 | ptrA/ptrB are taken at b_idx 0 under need_A_B and from then on equal the addresses of element 0 (null without need_A_B) |
| ConvInit.WriteElem | src/cpu/aarch64/jit_brgemm_conv.cpp:89-114 | one element write extends the filled prefix by one |
| ConvInit.FillKw | src/cpu/aarch64/jit_brgemm_conv.cpp:89-115 | the kw loop advances k by the kw span and fills to it |
| ConvInit.FillKh | src/cpu/aarch64/jit_brgemm_conv.cpp:81-116 | the kh loop advances k by one kh slice |
| ConvInit.FillKd | src/cpu/aarch64/jit_brgemm_conv.cpp:75-117 | the kd loop of a channel block visits all points |
| ConvInit.SkipTail | src/cpu/aarch64/jit_brgemm_conv.cpp:64 | positions of a channel block beyond its points are not written |
| ConvInit.InitBatch | src/cpu/aarch64/jit_brgemm_conv.cpp:48-119 | every visited point's element is rewritten with its addresses (or offsets from element 0) and vpads, and every other element is unchanged |
| ConvKernels.FindFirst | src/cpu/aarch64/jit_brgemm_conv.cpp:695-700 | the first matching slot, or −1 exactly when none matches |
| ConvKernels.CompKerIdx | src/cpu/aarch64/jit_brgemm_conv.cpp:686-703 | 0 without padding compensation; otherwise the first slot with all six bounds equal, or −1 when none; an empty depth or height range is an error |
| ConvKernels.BasePiecesTile | src/cpu/aarch64/jit_brgemm_conv.cpp:1031-1051 | the ranges `exec_base` registers tile [kw_s, kw_f) exactly once, left to right |
| ConvKernels.BasePiecesNonEmpty | src/cpu/aarch64/jit_brgemm_conv.cpp:1031-1051 | every range `exec_base` registers is non-empty |
| ConvKernels.PointPiecesNonEmpty | src/cpu/aarch64/jit_brgemm_conv.cpp:1028-1052 | every range registered for an output point is non-empty |
| ConvKernels.KernelRegistry.Update | src/cpu/aarch64/jit_brgemm_conv.cpp:988-999 | a tuple is appended to the tables only when it is new to the set; a new tuple with every slot taken breaks the assertion k ≤ ker_ranges_size |
| ConvKernels.KernelRegistry.RegisterSingles | src/cpu/aarch64/jit_brgemm_conv.cpp:1032-1036 | hands over the single-column ranges in order |
| ConvKernels.KernelRegistry.RegisterBlocks | src/cpu/aarch64/jit_brgemm_conv.cpp:1038-1045 | hands over the KW_BLOCK ranges in order |
| ConvKernels.KernelRegistry.RegisterPoint | src/cpu/aarch64/jit_brgemm_conv.cpp:1028-1052 | hands over nothing for an empty range, [0, KW) under `exec_vpad`, the kw tiling under `exec_base` |
| ConvKernels.Registered | src/cpu/aarch64/jit_brgemm_conv.cpp:1012-1052 | the per-point range function agrees with `PiecesAt`: the depth and height bounds of the point, `get_kw_range` of the block's ow, then the `exec_vpad`/`exec_base` choice |
| ConvKernels.KernelRegistry.RegisterPointAt | src/cpu/aarch64/jit_brgemm_conv.cpp:1012-1052 | the body of the oh loop hands over exactly the ranges of output point (od, oh) and keeps the registry valid |
| ConvKernels.KernelRegistry.RegisterOutBlock | src/cpu/aarch64/jit_brgemm_conv.cpp:1005-1053 | the od/oh loops of one output block hand over exactly `OutBlockPieces`: the block's points with od outer and oh inner, each point's ranges in kw order; the registry stays valid, and its ranges stay all non-empty exactly when they were |
| ConvKernels.KernelRegistry.RegisterAll | src/cpu/aarch64/jit_brgemm_conv.cpp:1002-1057 | the whole registration loop hands over exactly `AllPieces`: the output blocks with odb, ohb, owb nested in that order, each block as above; the registry stays valid, and its ranges stay all non-empty exactly when they were |
| ConvKernels.AllPiecesNonEmpty | src/cpu/aarch64/jit_brgemm_conv.cpp:1028-1052 | every range the registration loop hands over is non-empty in depth, height and width |
| ConvKernels.LookupRegistered | src/cpu/aarch64/jit_brgemm_conv.cpp:686-702 | a registered range is found at its first-insertion rank |
| ConvKernels.LookupUnregistered | src/cpu/aarch64/jit_brgemm_conv.cpp:686-702 | a range never registered is not found (−1) |
| Emulation.NewStrategy | third_party/ngen/ngen_emulation.hpp:44-57 | Gen11, Gen12LP, XeHPG and early XeHPC emulate 64-bit ops; every HW ≥ Gen11 emulates DW×DW; 64-bit multiply is emulated whenever 64-bit ops are or HW ≥ XeHPC; logic ops from later XeHPC; shifts are kept native only on early XeHPC; add32 is never chosen |
| Emulation.SplitImm | third_party/ngen/ngen_emulation.hpp:172-189 | a q/uq immediate gives ud low and d/ud high halves that reassemble its bits; any other immediate is kept with a zero high half |
| Emulation.SplitImmValue | third_party/ngen/ngen_emulation.hpp:172-189 | the halves' values reassemble the signed or unsigned value: hi·2³² + lo |
| Emulation.LowWord | third_party/ngen/ngen_emulation.hpp:203-206 | the uw immediate bits & 0xffff |
| Emulation.HighWord | third_party/ngen/ngen_emulation.hpp:215-218 | the uw immediate of bits 16–31 |
| Emulation.WordsReassemble | third_party/ngen/ngen_emulation.hpp:203-218 | high·2¹⁶ + low is the low 32 bits of the immediate |
| Emulation.Log2 | third_party/ngen/ngen_emulation.hpp:709-710 | the exponent of a power of two |
| Emulation.EmulImmPlan | third_party/ngen/ngen_emulation.hpp:698-716 | 0 becomes a move of 0, 1 a move (nothing when dst = src0), a power of two a shift by 1…31 with 2^k the value; a real multiply exactly for 64-bit types or other values |
| Emulation.PlanMultiplies | third_party/ngen/ngen_emulation.hpp:700-712 | every plan that is not a multiply computes x·value mod 2⁶⁴ |
| Emulation.EmulConstantImm | third_party/ngen/ngen_emulation.hpp:818-824 | `emulConstant` passes a positive constant as ud and any other as d, keeping its value |
| Emulation.EmulConstantPlan | third_party/ngen/ngen_emulation.hpp:818-824 | the strength reduction of a 32-bit constant: 0, 1, powers of two above 1, and a multiply for negatives and other values |
| Emulation.EshlPairState | third_party/ngen/ngen_emulation.hpp:751-757 | the four emitted instructions leave hi = (s0Hi << n) \| (s0Lo >> 32−n) and lo = s0Lo << n |
| Emulation.EshlPairSem | third_party/ngen/ngen_emulation.hpp:751-757 | the emulated QW shift left by 0 < n < 32 computes (hi:lo) << n mod 2⁶⁴ |
| Emulation.EshlWidenState | third_party/ngen/ngen_emulation.hpp:758-762 | a DW source leaves lo = src << n and hi = src >> 32−n |
| Emulation.EshlWidenSem | third_party/ngen/ngen_emulation.hpp:758-762 | the emulated shift of a DW source computes its zero-extended value << n |
| Emulation.EshlMoveSem | third_party/ngen/ngen_emulation.hpp:737-740 | a shift by 0 is a move |
| Emulation.EshlPairAll | third_party/ngen/ngen_emulation.hpp:751-757 | the pair sequence is correct on every register file and uses only 32-bit instructions |
| Emulation.EshlWidenAll | third_party/ngen/ngen_emulation.hpp:758-762 | as above for a DW source |
| Emulation.EshlLowSem | third_party/ngen/ngen_emulation.hpp:763-765 | a DW destination gets the low word shifted by n mod 32 |
| Emulation.EshlNativeSem | third_party/ngen/ngen_emulation.hpp:763-765 | a native QW shift computes value << n mod 2⁶⁴ |
| Emulation.Eshl | third_party/ngen/ngen_emulation.hpp:727-767 | n = 0 is a move; an emulated shift with n ≥ 32 fails; the result is (value << n) mod 2⁶⁴ for a QW destination and the 32-bit shift for a DW one; emulated code is 32-bit only; native code is one instruction |
| Emulation.EshrState | third_party/ngen/ngen_emulation.hpp:795-802 | the four instructions leave hi = s0Hi >> n (arithmetic if signed) and lo = (carried << 32−n) \| (s0Lo >> n) |
| Emulation.EshrPairSem | third_party/ngen/ngen_emulation.hpp:795-802 | with s0Hi carried into the low word, the sequence computes the 64-bit shift right, logical or arithmetic |
| Emulation.EshrAsWrittenLosesBits | third_party/ngen/ngen_emulation.hpp:798 | the sequence as written (s0Lo carried) maps hi:lo = 1:0 shifted by any 0 < n < 32 to 0 instead of 2^(32−n) |
| Emulation.EshrWidenSem | third_party/ngen/ngen_emulation.hpp:803-808 | a DW source gives its 32-bit shift right with a zero high word |
| Emulation.EshrMoveSem | third_party/ngen/ngen_emulation.hpp:781-784 | a shift by 0 is a move |
| Emulation.EshrPairAll | third_party/ngen/ngen_emulation.hpp:795-802 | the corrected pair sequence is right on every register file and 32-bit only |
| Emulation.EshrWidenAll | third_party/ngen/ngen_emulation.hpp:803-808 | as above for a DW source; unsigned, it is the 64-bit shift of the zero-extended value |
| Emulation.EshrLowSem | third_party/ngen/ngen_emulation.hpp:809-813 | a DW destination gets the 32-bit shift right of the low word |
| Emulation.EshrNativeSem | third_party/ngen/ngen_emulation.hpp:809-813 | a native QW shift right is the 64-bit logical or arithmetic shift |
| Emulation.Eshr | third_party/ngen/ngen_emulation.hpp:771-814 | n = 0 is a move; an emulated shift with n ≥ 32 fails; the result is the 64-bit shift right for a QW destination (with the line-798 correction) and the 32-bit one for a DW destination; emulated code is 32-bit only; native code is one instruction |
| Emulation.Add32State | third_party/ngen/ngen_emulation.hpp:402-419 | the add32 sequence leaves lo = (lo0 + lo1) mod 2³²; the high word is (hi0 + hi1) mod 2³², except that it is left as it was when the destination's high half is one of two QW sources'; 32-bit instructions only |
| Emulation.Add32Arith | third_party/ngen/ngen_emulation.hpp:35 | adding halves without a carry gives the 64-bit sum exactly when the low words do not carry |
| Emulation.Add32Exact | third_party/ngen/ngen_emulation.hpp:402-419 | when the destination's high half is not a source's, add32 on unsigned sources gives the 64-bit sum exactly when the low words do not carry |
| Emulation.Add32InPlaceExact | third_party/ngen/ngen_emulation.hpp:411-413 | when the destination's high half is a QW source's, add32 gives the 64-bit sum exactly when the sum's high word equals that kept high word, i.e. the sum stays in that source's 2³² segment (the assumption stated at line 35) |
| Emulation.SignExtendSem | third_party/ngen/ngen_emulation.hpp:474-487 | `asr 31` into a temporary forms the high word of the sign extension and changes nothing else |
| Emulation.ExtSem | third_party/ngen/ngen_emulation.hpp:474-487 | after the sign extension, each source's high word and low word reassemble its 64-bit value |
| Emulation.LowSem | third_party/ngen/ngen_emulation.hpp:493-514 | every low-word layout (direct, offset destination, strided through a temporary) stores the low sum and its carry |
| Emulation.HighSem | third_party/ngen/ngen_emulation.hpp:519-528 | the high word is carry + hi0 + hi1 mod 2³², and the low word is kept |
| Emulation.SlowAddSem | third_party/ngen/ngen_emulation.hpp:467-528 | the addc + carry sequence computes (s0 + s1) mod 2⁶⁴ unless both sources are signed DWs |
| Emulation.SlowAddAll32 | third_party/ngen/ngen_emulation.hpp:467-528 | the slow path uses only 32-bit instructions |
| Emulation.Add32Sem | third_party/ngen/ngen_emulation.hpp:402-419 | the add32 sequence leaves the kept or added high word over the low words' sum mod 2³² |
| Emulation.NativeAddSem | third_party/ngen/ngen_emulation.hpp:420-421 | the native add is the 64-bit (or 32-bit) sum |
| Emulation.LowAddSem | third_party/ngen/ngen_emulation.hpp:423-426 | a DW destination gets the 32-bit sum of the low words |
| Emulation.EaddInternal | third_party/ngen/ngen_emulation.hpp:390-532 | the 64-bit emulated add of two signed DWs fails; otherwise a QW destination gets (s0 + s1) mod 2⁶⁴ and a DW destination (s0 + s1) mod 2³²; add32 mode gives `Add32Sum`, the sequence of lines 402-419 as written; emulated code is 32-bit only; native code is one instruction |
| Matmul.FirstBcast | src/cpu/x64/matmul/brgemm_matmul_utils.hpp:58-59 | the smallest broadcast dimension, or −1 exactly when none is |
| Matmul.LastBcast | src/cpu/x64/matmul/brgemm_matmul_utils.hpp:63 | the largest broadcast dimension, or −1 exactly when none is |
| Matmul.MaskBitsAt | src/cpu/x64/matmul/brgemm_matmul_utils.hpp:55-57 | bit k of the mask is set exactly when dimension ndims−1−k is broadcast |
| Matmul.MaskBitsZero | src/cpu/x64/matmul/brgemm_matmul_utils.hpp:55-57 | the mask is zero exactly when no dimension is broadcast |
| Matmul.GbOffsAt | src/cpu/x64/matmul/brgemm_matmul_utils.hpp:54 | gb_off[d] is batch divided in turn, with C truncation, by dst dims 0…d |
| Matmul.RunMask | src/cpu/x64/matmul/brgemm_matmul_utils.hpp:52-57 | the loop ORs the bit of every broadcast dimension into the mask |
| Matmul.RunFirst | src/cpu/x64/matmul/brgemm_matmul_utils.hpp:58-59 | the loop sets first_bcast_dim once, to the first broadcast dimension |
| Matmul.RunLast | src/cpu/x64/matmul/brgemm_matmul_utils.hpp:63 | the loop leaves last_bcast_dim at the last broadcast dimension |
| Matmul.RunBcastProd | src/cpu/x64/matmul/brgemm_matmul_utils.hpp:64 | the loop multiplies bcast_dims_prod by the extent of every broadcast dimension |
| Matmul.RunFirstToLastProd | src/cpu/x64/matmul/brgemm_matmul_utils.hpp:51-67 | starting from batch, the product is divided by every extent before the first broadcast dimension (all of them when none is) |
| Matmul.BcastDesc.constructor | src/cpu/x64/matmul/brgemm_matmul_utils.hpp:38-46 | mask 0, first/last −1, products 1, not across all batch dims, zero arrays |
| Matmul.BcastDesc.CountDim | src/cpu/x64/matmul/brgemm_matmul_utils.hpp:55-67 | one iteration's broadcast bookkeeping |
| Matmul.BcastDesc.SetParams | src/cpu/x64/matmul/brgemm_matmul_utils.hpp:48-71 | batch_dims and gb_off are written for the batch dims only. The scalar fields are those of the loop started from the old mask, first, last and product, with the prod field starting at batch. bcast_across_all_batch_dims ⇔ batch ≤ 1 ∨ (mask > 0 ∧ bcast_dims_prod = batch) |
| Matmul.FreshMask | src/cpu/x64/matmul/brgemm_matmul_utils.hpp:55-57 | on a fresh descriptor, bit ndims−1−d is set exactly for the broadcast d, and the mask is nonzero exactly when some dimension is broadcast |
| Matmul.GbOffIsStride | src/cpu/x64/matmul/brgemm_matmul_utils.hpp:54 | when batch is the product of the extents, gb_off[d] is the product of the extents after d, the row-major stride of dimension d |
| Matmul.IsPow2Iff | src/cpu/x64/matmul/brgemm_matmul_utils.hpp:236 | the power-of-two test holds exactly for 2^n |
| Matmul.LdaBigPow2 | src/cpu/x64/matmul/brgemm_matmul_utils.hpp:233-237 | `lda_big_pow2` ⇔ A not transposed ∧ K a power of two ∧ K ≥ 8192 / a_dt_sz |
| Matmul.MaybeLowBrgBlocking | src/cpu/x64/matmul/brgemm_matmul_utils.hpp:313-319 | a true result needs an odd M_blk in 37…61 and, below 48, an N tail (N not runtime, N mod 16 ≠ 0); 53, 59 and 61 always qualify |
| Matmul.ListedArePrime | src/cpu/x64/matmul/brgemm_matmul_utils.hpp:314-316 | each of the seven listed block sizes is prime |
| Matmul.LowBrgBlockingPrimes | src/cpu/x64/matmul/brgemm_matmul_utils.hpp:313-319 | `maybe_low_brg_blocking` holds exactly for a prime M_blk between 32 and 64 that, below 48, also has an N tail (N not runtime, N mod 16 ≠ 0) |
| Matmul.GetActualLdb | src/cpu/x64/matmul/brgemm_matmul_utils.hpp:296-310 | `acbd` without a B buffer gives B_strides[1] / b_dt_sz with C truncation, and it is an error exactly when b_dt_sz ≠ tr_b_dt_sz; otherwise AMX, a B buffer or a non-plain layout gives wei_n_blk; a plain layout gives N when K = 1 and the stride otherwise |
| Matmul.LdbIgnoresStrideWhenKIsOne | src/cpu/x64/matmul/brgemm_matmul_utils.hpp:303-309 | with a plain layout, no AMX, no B buffer and K = 1 the result is N whatever B_strides[1] is |
| Matmul.LdbBlockedIgnoresStrides | src/cpu/x64/matmul/brgemm_matmul_utils.hpp:302-304 | outside `acbd` without a B buffer, AMX, a B buffer or a non-plain layout gives wei_n_blk whatever the stride and the element size |
| Matmul.LdbFromByteStride | src/cpu/x64/matmul/brgemm_matmul_utils.hpp:297-300 | where the descriptor's stride is used (`acbd` without a buffer, or plain with K ≠ 1), a byte stride of ldb elements gives back ldb |

## Left out

- Loop-sequencer internals: timeline analysis, phase materialisation, warmup and cooldown. The requests `kLoop` builds are plain data. `loop_sequencer.hpp` is not part of this model.
- Instruction emission other than synchronisation events: loads, stores, outer products, copies, dequantisation, remask setup, descriptor setup and status logging. Each appears only as an opaque trace event, or not at all.
- The register allocator `state.ra` is a counter of free registers. A fresh register is numbered by a counter. Out-of-registers exceptions are `Fail` outcomes.
- Cross-thread behaviour of the generated kernel: barriers are events in the trace, not threads.
- Loop iterations (`Iteration`) are integers. The RSWA pairing compares those integers.
- KLoopSync.SyncState.JumpIfLT: the model does not promise that every jump tests a compare with its own threshold. That holds only if the loop sequencer never repeats a threshold across a write of the flag or K that keeps `lastThresh`. Those writes are `OffsetCounter`, `LoopStart`, `LoopEnd`, the cooldown (`NotifyCooldown`), the main-loop check at line 635 (`LoopCheck`), and the SLM remainder load's compares at lines 1759 and 1776 (`RemainderFlagWrites`) unless `kLoopModifiedFlagAP` resets the threshold. The sequencer's call order is not part of this model. The contract states the exact condition as an if-and-only-if. A first threshold of 0 also skips the compare, because the source resets `lastThresh` to 0.
- KLoopSync.SyncState.RemainderFlagWrites: `kLoopModifiedFlagAP` (line 1758) is defined elsewhere in the GEMM generator and is not part of this model. Whether it resets `lastThresh` is the parameter `forgets`. The SIMT control flow (`goto`/`join`) around the compares is left out.
- KLoopSync.SyncState.NotifyShortLoop: the model's code is one trace in emission order, while the short loop is entered by a jump from before the main loop. Restoring the pre-loop snapshot therefore requires `Restorable`: a header the snapshot marks ready must still be live in the emitted code. The source does not need this. The C prefetch and L3 prefetch set-up of the short-loop phase are left out. The remainder flags' reset at line 1480 is `KLoopRem.RemFlags.ResetForShortLoop`, on a separate object.
- KLoopSync.SyncState.NotifyShortLoopEnd, KLoopSync.SyncState.NotifyMainPathEnd: the virtual-flag teardown (`vflagTeardown`) is left out; it neither synchronises nor touches the loop flag.
- KLoopSync.SyncState.LoopStart, KLoopSync.SyncState.LoopEnd: only their flag and K writes, loop jumps and barriers are modelled. The L3 peel distance and its warning, the C prefetch (`gemmPrefetchC`), the L3 prefetch set-up, the SWSB nops, labels and virtual-flag wiping are left out. They emit code that neither synchronises nor touches the loop flag.
- KLoopSched.SlmBuffer: only the buffer range is a contract; the store side of its use is covered by StoreIncAdvances and StoreIncTelescopes.
- KLoopSched.KInc: the full interleaved step is characterised through KIncGlobal for group size 1 only. The `group` scaling of quantization steps has no lemma of its own.
- KLoopSched.SlmSchedule: of the requests `kLoop` builds, only the SLM load, store and after-store requests (main and remainder) are modelled. The quantization-parameter loads and the other operand requests are left out.
- The remainder flags' descriptor-remainder setup, mask loading and address adjustment in `kLoopActivate*Remainder` are left out. They call generator helpers defined elsewhere in the GEMM generator (`setupTeardownLoadStoreDesc`, `adjustSubblockAddrs`, `addRemainder`, `assignMasks`, `loadMasks`). Only the flag transitions are modelled.
- `get_bs_idx` and `maybe_invert` are defined in `jit_brgemm_conv.hpp`, outside the modelled files. `get_bs_idx` is modelled as the row-major index of the four bounds in the KD·KD·KH·KH table. `maybe_invert` is a mirroring switch parameter.
- Convolution `execute`, `cal_compensation`, kernel creation, post-op kernels and `maybe_conv_inp` are left out: parallel loops, pointer I/O, and helpers defined elsewhere in oneDNN (`saturate`, `get_inp_size`, `calculate_end_padding`, the brgemm kernel factory).
- Addresses in `init_batch` are integers; pointer arithmetic does not wrap.
- `get_kw_range` is modelled with the clipping of `get_ow_range` computed in place, not as a separate call.
- nGEN register regions, strides and `RegData` offsets are abstracted. A 64-bit operand is a pair of word locations; a DW register is a location of its own and does not alias the halves of a QW register. The add layout (offset destination, strided temporary) is a parameter.
- Emulation.Eshl, Emulation.Eshr: for an emulated shift of a signed DW source into a QW destination, the result is stated as the shift of the 32-bit value. The high word is zero-extended, as the emitted code does. It is not compared with a 64-bit sign-extended shift. Emulation.Eshr emits the corrected sequence of the Findings row (`EshrPairCode`) for an emulated QW source; the as-written one is `EshrPairCodeAsWritten`.
- `emov` is a single 64-bit move instruction in the model. Its own emulation is not expanded.
- The flag-register/overflow path of `eaddInternal` (lines 440-466) and the `eaddFixupQD` fix-ups are left out: they depend on flag and overflow semantics of the hardware. The model follows the slow path whenever the 64-bit add is emulated.
- Source negation modifiers and `eaddHandleS1Neg`, the operand swap in `eadd` (lines 535-540) and an immediate `src1` in `eadd` are left out.
- The DW×QW multiply sequences (`mach`/`macl`) and `emulInternal` are left out. A multiplication by an immediate that needs them is the `Multiply` plan with its effect unstated.
- The HW enumeration and `SteppingPVCXTB0` come from nGEN's core header, and `utils::is_zero_or_pow2` and `utils::log2` from nGEN's utilities. `math::is_pow2` comes from oneDNN's `common/math_utils.hpp`. None of these is part of this model, so the model gives them their own definitions: HW ranks in declaration order, the stepping threshold as a parameter, and exact power-of-two tests (`Matmul.IsPow2`, `Emulation.Log2`).
- bf16/bf8 conversion moves in nGEN are left out: floating point.
- `init_conf`, `init_brgemm_matmul_conf` and the other matmul helpers that `brgemm_matmul_utils.hpp` only declares are left out: they are defined in `brgemm_matmul_utils.cpp`, which is not part of this model. `use_buffer_b`'s ISA and data-type heuristics are left out too: they read configuration fields set by `init_brgemm_matmul_conf`.

## Findings

| source | as written | input that shows it | evidently intended | confidence | as-written member | corrected member |
|---|---|---|---|---|---|---|
| third_party/ngen/ngen_emulation.hpp:798 | the emulated 64-bit shift right carries `s0Lo << (32 − n)` into the low word | a QW source holding 2³² (hi 1, lo 0) shifted right by any n in 1…31 yields 0 | carry `s0Hi << (32 − n)`, giving 2^(32−n) | high, not executed | Emulation.EshrAsWrittenLosesBits | Emulation.EshrPairSem |
