# Verified models of libtt's kernels, lowerings and coordination protocol

libtt adds device kernels, the StableHLO lowering that feeds them, and a host
coordination protocol to tt-xla, tt-mlir and tt-metal. This project models the
parts of it that carry an argument and proves that each fast, split or buffered
form is the simple one it stands for. `dafny verify dfyconfig.toml` checks it.

**Indexed rows.** `Canonical`, `TableView`, `IndexPages` and `Tensors` model how
an operand becomes a `[B, N, S, R]` table and an index tensor becomes pages;
`StableHloGather` states the operation from the StableHLO specification;
`GatherDims`, `GatherAcceptance` and `GatherLowering` prove which gathers the
lowering takes and that it computes them; `UpdateSliceLowering` does the same for
`dynamic_update_slice`. `IndexedRows` states what the two row
operations mean, as a sequential loop; `RowsScatter` and `RowsGather` are the
kernels over arrays, in chunks, batches and per-core ranges; `ScatterRing` is the
scatter's reader and writer as two processes over a ring.

**Coordination.** `KeyNames` reads the key texts back; `KeyValueContext` is the
class with its mutable counters; `Coordination`, `Messages` and `CollectiveRuns`
are state machines over every interleaving of the processes, for key uniqueness,
message order and collectives; `MessageProgress` is about what can and must still
happen to a message, `SplitRuns` about the splits in such a run.

**Matmul.** `VectorUnit` is the register and tile layout; `MatmulVector` and
`MatmulFinish` are the skewed accumulation and its un-skewing, over a multiply-add
that is any function; `MatmulRuns` is the core's reader and compute loop.

**TopK.** `TopKKeys`, `TopKOrder`, `TopKSelect`: keys, order, scan and merge;
`TopKPlan`: the work plan; `TopKOutput` and `TopKProtocol`: the output tiles and
the cores that share them; `TopKTileRow`: what those cores leave in the tiles.

**quantize_rows.** `QuantizeMaxima`, `QuantizePartial` and `QuantizeDivisor` fold
the row maxima, characterised by their upper bounds; `QuantizeScale` and
`QuantizeTiles` make the divisor and the codes; `QuantizePlan` and `QuantizeDense`
share and pack the tiles; `QuantizeExchange` is the all-to-all exchange;
`QuantizeRows` puts the operation together and `QuantizeResult` says what it returns.

**rng_bits.** `Words32`, `XorBytes`, `Threefry`, `Philox`: the word arithmetic, with
the generators' published answers in `KnownAnswers`; `RngTiles`, `RngState`,
`RngKernel`: lanes, state and the whole call; `RngResult`: what it returns.

**Fused QKV split.** `QkvUnits`: the work units and their exact cover; `QkvWriter`
and `QkvSplit`: units read, computed and written over the cores, every write
counted; `QkvResult`: both outputs by token and head; `QkvNorm` and `QkvPadding`:
norm and rotation, in the kernel's loops, and the padding rows.

Words are 32-bit vectors where bits matter and integers below 2^32 where
arithmetic does. Values a kernel only moves are of any type. A kernel's methods
work on arrays as the kernel works on L1 or DST; a tile is either its 1024 words
in memory (four faces) or its 32 vectors of 32 lanes. Where code and documentation
differ, the code is modelled: `GatherAcceptance.AcceptedExactly` gives the exact
condition under which the lowering takes a gather, which not every gather that
meets the operation's constraints does, with two that it rejects; and
`QPaddingIsZero` and `KPaddingIsZero` the one under which the padding rows that
are computed with a group of heads are zero, with an epsilon for which they are
not.

## Model

| member | source | states |
|---|---|---|
| CanonicalLayout.Canonicalize | tt_mlir/lib/Conversion/StableHLOToTTIR/IndexedRows.cpp:145-235 | the layout of the operand: its order kept or grouped as `KeepsOrder` says, a component region from the first to the last dimension that needs a component (or empty, before the last dimension), and over it the component sizes, windows and columns, N and W over the row components, and the column flag |
| CanonicalLayout.OneLayout | tt_mlir/lib/Conversion/StableHLOToTTIR/IndexedRows.cpp:145-235 | that contract determines the layout: any two that meet it are equal |
| CanonicalLayout.Order | tt_mlir/lib/Conversion/StableHLOToTTIR/IndexedRows.cpp:151-211 | the order is the operand's own exactly when it has no batching dims, or they come before every component with nothing but free unit dims beside them, and else batch dims, components, whole dims; the region ends at the first and last dimension that needs a component; the batch dims are in front of it |
| CanonicalLayout.NaturalKeepsOrder | tt_mlir/lib/Conversion/StableHLOToTTIR/IndexedRows.cpp:160-172 | the loop that looks for a reason to permute finds one exactly when the operand may not keep its order |
| CanonicalLayout.NaturalRegions | tt_mlir/lib/Conversion/StableHLOToTTIR/IndexedRows.cpp:160-172 | an operand kept in order has its batch dims, and only batch and unit dims besides, in front of the region |
| CanonicalLayout.GroupedRegions | tt_mlir/lib/Conversion/StableHLOToTTIR/IndexedRows.cpp:176-201 | the grouped order puts batch dims, then component dims, then whole dims, each exactly once |
| CanonicalLayout.UnbatchedIsNatural | tt_mlir/lib/Conversion/StableHLOToTTIR/IndexedRows.cpp:1170-1171 | without batching dims the operand is never permuted |
| TableView.SliceAt | tt_mlir/lib/Conversion/StableHLOToTTIR/IndexedRows.cpp:102-116 | the table element at (batch index, start components plus window offsets, row index) is the permuted operand's element there, column mode and empty regions included |
| TableView.MovedAt | tt_mlir/lib/Conversion/StableHLOToTTIR/IndexedRows.cpp:119-134 | the moved element that batch index, position, offsets and row index name, in the gathered shape |
| TableView.PartsOfElement | tt_mlir/lib/Conversion/StableHLOToTTIR/IndexedRows.cpp:119-134 | every element of every window row has exactly such parts |
| Tensors.PermuteOfUnits | tt_mlir/lib/Conversion/StableHLOToTTIR/IndexedRows.cpp:253-271 | a permutation that keeps the order of the dimensions of extent other than 1 moves no data, so the reshape is right |
| IndexPages.MoveDims | tt_mlir/lib/Conversion/StableHLOToTTIR/IndexedRows.cpp:255-275 | identity, reshape or permute, the result is the permuted tensor |
| IndexPages.PagesConcat | tt_mlir/lib/Conversion/StableHLOToTTIR/IndexedRows.cpp:345-388 | pages of the pieces, concatenated, are the pages of the concatenated index vector |
| IndexPages.SelectColumns | tt_mlir/lib/Conversion/StableHLOToTTIR/IndexedRows.cpp:390-418 | component k of the pages is the start index the layout names for it, or zero |
| IndexPages.BuildIndices | tt_mlir/lib/Conversion/StableHLOToTTIR/IndexedRows.cpp:321-420 | the index tensor holds, at (batch, component, position), the start index component of that position, from whatever pieces it is built |
| GatherDims.Classify | tt_mlir/lib/Conversion/StableHLOToTTIR/IndexedRows.cpp:541-561 | each operand dimension's kind, window and index column, per the dimension numbers |
| GatherDims.IndexBatchingDims | tt_mlir/lib/Conversion/StableHLOToTTIR/IndexedRows.cpp:563-572 | index dims paired with operand batching dims, in operand order |
| GatherLowering.EnumerateResultDims | tt_mlir/lib/Conversion/StableHLOToTTIR/IndexedRows.cpp:432-457 | each entry of the four lists is the place of its dimension among the moved rows' dimensions, and the shape has its extent |
| GatherLowering.RolesDistinct | tt_mlir/lib/Conversion/StableHLOToTTIR/IndexedRows.cpp:602-662 | no two result dimensions show the same operand or index dimension |
| GatherLowering.Landing | tt_mlir/lib/Conversion/StableHLOToTTIR/IndexedRows.cpp:615-626 | an operand dimension lands on the place of its own role |
| GatherLowering.FillPermutation | tt_mlir/lib/Conversion/StableHLOToTTIR/IndexedRows.cpp:606-662 | the permutation sends every result dimension to the moved dimension of its role; accepted exactly when the ranks agree |
| GatherLowering.BatchOfTable | tt_mlir/lib/Conversion/StableHLOToTTIR/IndexedRows.cpp:577-580 | the index batch read for a result element is the one paired with its table batch |
| GatherLowering.StartOf | tt_mlir/lib/Conversion/StableHLOToTTIR/IndexedRows.cpp:593-622 | the slice start along an operand dimension is the component the kernels decode; both are the in-range start nearest to the index (`StableHloGather.GatherFromNearest`) |
| GatherLowering.FillAgrees | tt_mlir/lib/Conversion/StableHLOToTTIR/IndexedRows.cpp:584-591 | the kernel's position needs no clamping just when the operation's start indices do not, so fill mode zeroes the same elements |
| GatherLowering.MovedElement | tt_mlir/lib/Conversion/StableHLOToTTIR/IndexedRows.cpp:588-671 | the operand element the kernel moves to a result index is the one the gather specification names |
| GatherLowering.MovedIsGather | tt_mlir/lib/Conversion/StableHLOToTTIR/IndexedRows.cpp:602-671 | rows moved by the kernel, unflattened and permuted, are the gather result |
| GatherLowering.RankAccepted | tt_mlir/lib/Conversion/StableHLOToTTIR/IndexedRows.cpp:663-666 | the rank check passes exactly when every collapsed dimension lies in the component region |
| GatherLowering.LowerGather | tt_mlir/lib/Conversion/StableHLOToTTIR/IndexedRows.cpp:502-672 | for every rank, shape, dimension numbers and indices, an accepted gather equals the `gather` section of the StableHLO specification: each result element is read from the slice whose start is the in-range one nearest to the start index, batching dims paired; one with elements is accepted if and only if the operation and the operand's shape meet `GatherAcceptance.Accepts` |
| GatherAcceptance.AcceptedExactly | tt_mlir/lib/Conversion/StableHLOToTTIR/IndexedRows.cpp:577-666 | what the lowering tests on its layout comes to a condition on the operation and shape: with some dimension indexed or covered in part, every collapsed dim lies between two such dims when the operand keeps its order, and is one itself when it is grouped; with none, nothing is collapsed and the table has no more batches than the index tensor, or that has one |
| GatherAcceptance.ComponentPlaces | tt_mlir/lib/Conversion/StableHLOToTTIR/IndexedRows.cpp:204-211 | a dimension is in the component region exactly when it lies between two that need a component (order kept) or needs one (grouped) |
| GatherAcceptance.UnaddressedBatches | tt_mlir/lib/Conversion/StableHLOToTTIR/IndexedRows.cpp:206-217 | with nothing indexed, the batch test passes exactly when the batching dims are units, or every dim the table counts as a batch besides them is |
| GatherAcceptance.CollapsedColumnRejected | tt_mlir/lib/Conversion/StableHLOToTTIR/IndexedRows.cpp:663-666 | a gather of one row of a [4, 1] operand that collapses the column as well meets the operation's constraints and is rejected |
| GatherAcceptance.WholeSlicesRejected | tt_mlir/lib/Conversion/StableHLOToTTIR/IndexedRows.cpp:577-580 | a gather of whole slices of a batched [2, 3, 4] operand meets the constraints and is rejected |
| StableHloGather.OperandIndexInShape | tt_mlir/lib/Conversion/StableHLOToTTIR/IndexedRows.cpp:593-595 | clamped slices lie inside the operand, so the specification is total |
| StableHloGather.GatherFromNearest | tt_mlir/lib/Conversion/StableHLOToTTIR/IndexedRows.cpp:593-595 | every element of such a gather is, for starts that nothing in range is nearer to than they are to the start indices, the operand's element at those starts plus the offsets, and zero in fill mode where a start index is not itself in range |
| UpdateSliceLowering.Classify | tt_mlir/lib/Conversion/StableHLOToTTIR/IndexedRows.cpp:1135-1168 | dimensions the update does not cover are indexed, with the starts brought into the range in which the update fits |
| UpdateSliceLowering.Components | tt_mlir/lib/Conversion/StableHLOToTTIR/IndexedRows.cpp:1170-1195 | the single position's components are the clamped starts with zeros for covered dims |
| UpdateSliceLowering.StartsInBounds | tt_mlir/lib/Conversion/StableHLOToTTIR/IndexedRows.cpp:1161-1166 | after the clamp the scatter decodes every component unclamped: nothing is dropped |
| UpdateSliceLowering.HitInBox | tt_mlir/lib/Conversion/StableHLOToTTIR/IndexedRows.cpp:1197-1206 | an element the scatter writes lies in the clamped box and gets the update's element of that place |
| UpdateSliceLowering.BoxIsHit | tt_mlir/lib/Conversion/StableHLOToTTIR/IndexedRows.cpp:1197-1206 | every element of the box is written by some window row |
| UpdateSliceLowering.ScatterUpdates | tt_mlir/lib/Conversion/StableHLOToTTIR/IndexedRows.cpp:1197-1206 | the scatter of the update replaces exactly the box |
| UpdateSliceLowering.UpdatedIsReplaced | tt_mlir/lib/Conversion/StableHLOToTTIR/IndexedRows.cpp:1161-1166 | that box begins, along every dimension, at the in-range start nearest to the given one |
| UpdateSliceLowering.LowerUpdateSlice | tt_mlir/lib/Conversion/StableHLOToTTIR/IndexedRows.cpp:1111-1208 | for every rank and mix of covered and uncovered dims the result is the operand with the update in place of exactly the box at the in-range starts nearest to the given ones (`dynamic_update_slice` section of the StableHLO specification) |
| IndexedRows.RowsGatherAt | ttnn/cpp/ttnn/operations/experimental/indexed_rows/indexed_rows.hpp:35-42 | the gather specification element by element: the table row of the coordinates, zeros for out-of-bounds positions in fill mode; `CoordsNearest` says which coordinates |
| IndexedRows.ClampIsNearest | ttnn/cpp/ttnn/operations/experimental/indexed_rows/device/kernels/indexed_rows_common.hpp:57-66 | the clamped value is the only one in [0, hi] that no other is nearer to the index than |
| IndexedRows.ClampMonotone | ttnn/cpp/ttnn/operations/experimental/indexed_rows/device/kernels/indexed_rows_common.hpp:57-66 | a larger index is never clamped to a smaller value |
| IndexedRows.CoordsNearest | ttnn/cpp/ttnn/operations/experimental/indexed_rows/device/kernels/indexed_rows_common.hpp:57-66 | every start coordinate is the in-range one nearest to its index value |
| IndexedRows.RowsDistinct | ttnn/cpp/ttnn/operations/experimental/indexed_rows/device/kernels/indexed_rows_common.hpp:73-84 | window rows of one position are distinct rows of the table |
| IndexedRows.OverwrittenAt | ttnn/cpp/ttnn/operations/experimental/indexed_rows/indexed_rows.hpp:50-55 | if all updates of an element write one value the scatter leaves it when any update reaches the element, else the table's |
| IndexedRows.CombinedAt | ttnn/cpp/ttnn/operations/experimental/indexed_rows/device/kernels/indexed_rows_common.hpp:230-287 | a reducing scatter leaves at every element the left fold of the reduction, from the table's element, over the source elements of exactly the updates that reach it, in increasing batch, position and window row |
| IndexedRows.LastUpdateAt | ttnn/cpp/ttnn/operations/experimental/indexed_rows/device/kernels/dataflow/rows_scatter_writer.cpp:88-89 | an overwriting scatter leaves what the last of those updates holds, and the table's element where there is none |
| IndexedRows.AllHits | ttnn/cpp/ttnn/operations/experimental/indexed_rows/device/kernels/dataflow/rows_scatter_writer.cpp:104-172 | the updates that reach an element can be listed in that order, whatever the indices |
| IndexedRowsCommon.Decode | ttnn/cpp/ttnn/operations/experimental/indexed_rows/device/kernels/indexed_rows_common.hpp:49-70 | each coordinate is the value of [0, size - window] nearest to the index, read signed or unsigned, and the flag is set just when a component needed to move |
| IndexedRowsCommon.SignedIsTwosComplement | ttnn/cpp/ttnn/operations/experimental/indexed_rows/device/kernels/indexed_rows_common.hpp:62 | a raw word read signed is its two's complement |
| IndexedRowsCommon.WindowRowOf | ttnn/cpp/ttnn/operations/experimental/indexed_rows/device/kernels/indexed_rows_common.hpp:73-84 | peeling mixed-radix digits from the last gives the row-major row of the window offset |
| IndexedRowsCommon.StreamIndex | ttnn/cpp/ttnn/operations/experimental/indexed_rows/device/kernels/indexed_rows_common.hpp:340-365 | one read per component brings positions [m0, m0 + n) of one index batch |
| IndexedRowsCommon.Realign | ttnn/cpp/ttnn/operations/experimental/indexed_rows/device/kernels/indexed_rows_common.hpp:298-312 | an overlap-safe move: the destination holds the source's old bytes, whichever way they overlap |
| RowsScatter.InBatch | ttnn/cpp/ttnn/operations/experimental/indexed_rows/device/kernels/dataflow/rows_scatter_writer.cpp:77-85 | finds the copy's place of (page, offset) exactly when its chunk is in the batch |
| RowsScatter.ApplyWindow | ttnn/cpp/ttnn/operations/experimental/indexed_rows/device/kernels/dataflow/rows_scatter_writer.cpp:123-138 | a column window that straddles chunks is applied part by part, each part once, to this batch's chunks only |
| RowsScatter.ApplyPages | ttnn/cpp/ttnn/operations/experimental/indexed_rows/device/kernels/dataflow/rows_scatter_writer.cpp:140-167 | the row's pages of this batch take their chunks of the source; other pages are other batches' or cores' |
| RowsScatter.WrappedDistance | ttnn/cpp/ttnn/operations/experimental/indexed_rows/device/kernels/dataflow/rows_scatter_writer.cpp:110-111 | the one unsigned comparison decides membership in the core's rows, wrap-around included |
| RowsScatter.OfAnotherCore | ttnn/cpp/ttnn/operations/experimental/indexed_rows/device/kernels/dataflow/rows_scatter_writer.cpp:106-114 | a position skipped on its row components alone changes nothing of this core's pages |
| RowsScatter.ApplyPosition | ttnn/cpp/ttnn/operations/experimental/indexed_rows/device/kernels/dataflow/rows_scatter_writer.cpp:104-172 | an in-bounds position's window rows apply in order, an out-of-bounds one changes nothing |
| RowsScatter.UpdateBatch | ttnn/cpp/ttnn/operations/experimental/indexed_rows/device/kernels/dataflow/rows_scatter_writer.cpp:95-178 | after the table batches the core overlaps, the copy is the table with every update applied |
| RowsScatter.WriteBatch | ttnn/cpp/ttnn/operations/experimental/indexed_rows/device/kernels/dataflow/rows_scatter_writer.cpp:180-189 | each chunk of the batch goes to its place in the output, nothing else is written |
| RowsScatter.RunCore | ttnn/cpp/ttnn/operations/experimental/indexed_rows/device/kernels/dataflow/rows_scatter_writer.cpp:49-190 | one core's pages of the output are the simple loop's, reducing or overwriting, for every chunk, batch and index_batch size |
| RowsScatter.RunCores | ttnn/cpp/ttnn/operations/experimental/indexed_rows/device/kernels/dataflow/rows_scatter_writer.cpp:49-190 | for every split of pages over cores the output equals the sequential loop over positions in increasing m, so at every element what `CombinedAt` or `LastUpdateAt` says |
| RowsGatherKernels.SplitDigits | ttnn/cpp/ttnn/operations/experimental/indexed_rows/device/kernels/dataflow/rows_gather_reader.cpp:82-122 | a transfer number's position, window row, page and chunk are its mixed-radix digits |
| RowsGatherKernels.IndexCache.Locate | ttnn/cpp/ttnn/operations/experimental/indexed_rows/device/kernels/dataflow/rows_gather_reader.cpp:84-108 | the cached chunk covers the current position and batch, reloaded only when it does not reach it |
| RowsGatherKernels.ReadGroup | ttnn/cpp/ttnn/operations/experimental/indexed_rows/device/kernels/dataflow/rows_gather_reader.cpp:77-145 | each entry of a group holds its transfer's data (or zeros) where the writer wants it |
| RowsGatherKernels.OutputAddress | ttnn/cpp/ttnn/operations/experimental/indexed_rows/device/kernels/dataflow/rows_gather_writer.cpp:46-61 | the writer's page and offset are the transfer's place in the output |
| RowsGatherKernels.WriteGroup | ttnn/cpp/ttnn/operations/experimental/indexed_rows/device/kernels/dataflow/rows_gather_writer.cpp:42-67 | a group writes its transfers and nothing else |
| RowsGatherKernels.GatherCore | ttnn/cpp/ttnn/operations/experimental/indexed_rows/device/kernels/dataflow/rows_gather_reader.cpp:50-148 | one core's transfer range, wherever it begins and ends, writes exactly its part of the result |
| RowsGatherKernels.OneTransferPerElement | ttnn/cpp/ttnn/operations/experimental/indexed_rows/device/kernels/dataflow/rows_gather_reader.cpp:43-54 | every output element belongs to exactly one transfer |
| RowsGatherKernels.GatherCores | ttnn/cpp/ttnn/operations/experimental/indexed_rows/device/kernels/dataflow/rows_gather_reader.cpp:50-148 | for every partition of the transfers the output is the row gather, from the rows nearest to the indices |
| ScatterRing.GroupContiguous | ttnn/cpp/ttnn/operations/experimental/indexed_rows/device/kernels/dataflow/rows_scatter_reader.cpp:31-42 | the reader's group never wraps inside the ring |
| ScatterRing.BatchInOrder | ttnn/cpp/ttnn/operations/experimental/indexed_rows/device/kernels/dataflow/rows_scatter_writer.cpp:69-72 | the writer's batch is contiguous and holds exactly the next chunks in order |
| ScatterRing.NeverDeadlocked | ttnn/cpp/ttnn/operations/experimental/indexed_rows/device/indexed_rows_program_factory.cpp:262-273 | with the batch a multiple of the group (or all chunks fitting) no interleaving deadlocks, for every page count |
| ScatterRing.DeadlockExactly | ttnn/cpp/ttnn/operations/experimental/indexed_rows/device/indexed_rows_program_factory.cpp:262-273 | a deadlock is reachable exactly when the batch is not a multiple of the group and the chunks do not all fit |
| ScatterRing.SizeRing | ttnn/cpp/ttnn/operations/experimental/indexed_rows/device/indexed_rows_program_factory.cpp:268-271 | the host's sizing always gives a positive multiple of a positive group |
| WorkSplit.OwnerUnique | ttnn/cpp/ttnn/operations/experimental/indexed_rows/device/indexed_rows_program_factory.cpp:226-231 | consecutive ranges give every unit to exactly one core |
| KeyNames.DecodeKeyText | cpp/key_value_context.cc:204-222 | every key's text decodes to its context path, operation, ranks, tag and sequence, also where one group's prefix is a string prefix of another's |
| KeyNames.KeysApart | cpp/key_value_context.cc:204-222 | distinct keys have distinct texts |
| KeyNames.PrefixesApart | cpp/key_value_context.cc:147-165 | distinct contexts have distinct prefixes |
| Coordination.MessageKeyText | cpp/key_value_context.cc:210-222 | the concatenated message key is the text of the structured key |
| Coordination.CollectiveKeyText | cpp/key_value_context.cc:116-145 | likewise for the collectives' keys |
| Coordination.ChildPrefixText | cpp/key_value_context.cc:147-165 | and for child contexts' prefixes |
| Coordination.ChannelsApart | cpp/key_value_context.cc:204-222 | distinct channels have distinct counters |
| Coordination.NotYetIssued | cpp/key_value_context.cc:204-222 | a number about to be taken was taken by nobody before |
| Coordination.StepKeepsUnique | cpp/key_value_context.cc:81-165 | every step of every process keeps all issued keys distinct and unstored until put |
| Coordination.NoKeyPutTwice | cpp/key_value_context.cc:147-165 | in every interleaving of any number of processes and any nesting of contexts no key is put twice |
| Coordination.ContextsStayApart | cpp/key_value_context.cc:147-165 | a new context has a new prefix, and a prefix determines its member list |
| Messages.NumbersAreOrder | cpp/key_value_context.cc:210-222 | the n-th send of a channel is put under n and the n-th receive posted reads n |
| Messages.ReceiveGetsItsSend | cpp/key_value_context.cc:92-109 | in every interleaving the n-th receive, blocking or not, delivers the n-th send's payload |
| Messages.SsendReturnsAfterCopy | cpp/key_value_context.cc:86-96 | ssend returns only after the matching receive copied its data |
| Messages.SnoopSeesNext | cpp/key_value_context.cc:111-114 | snooping sees the next receive's message and consumes nothing |
| Messages.StepKeepsOrder | cpp/key_value_context.cc:81-114 | the channel invariant over every step |
| MessageProgress.RunsKeepAccount | cpp/key_value_context.cc:81-109 | after every run each send, receive and ssend is accounted for: its message is still to be put or stored, its receive open, failed or copied, its acknowledgement due or stored, its ssend waiting or returned |
| MessageProgress.SendIsNext | cpp/key_value_context.cc:81-90 | a send is the next of its lane, and is one that waits for an acknowledgement exactly when called as ssend |
| MessageProgress.PostIsNext | cpp/key_value_context.cc:92-109 | a receive is the next of its lane and waits for the message of that number |
| MessageProgress.ReceiveCanFinish | cpp/key_value_context.cc:92-109 | in every run a posted receive whose message is stored can finish at once: it copies a message of its buffer's size, and fails on any other |
| MessageProgress.SsendCanReturn | cpp/key_value_context.cc:86-96 | in every run an ssend whose message was copied returns within two more steps, the acknowledgement and the return |
| MessageProgress.SsendCompletes | cpp/key_value_context.cc:86-96 | an ssend with a posted receive of its size returns within four more steps, its payload delivered |
| MessageProgress.SettledMeansDelivered | cpp/key_value_context.cc:81-109 | where no open operation can step, every message sent is stored, every receive posted for one has it or failed on its size, and every ssend whose message was delivered has returned |
| MessageProgress.TaskStepsEnd | cpp/key_value_context.cc:81-109 | steps of open operations alone are bounded in number, so such a state is reached |
| KeyValueContexts.KeyValueContext.constructor | cpp/key_value_context.cc:224-231 | a new context's members, rank and prefix, with no channel counted yet |
| KeyValueContexts.KeyValueContext.Next | cpp/key_value_context.cc:204-208 | the channel's next name; only that counter advances, by one |
| KeyValueContexts.KeyValueContext.MessageKey | cpp/key_value_context.cc:210-222 | the key for the counter's value; it advances unless looking only; bad ranks fail and change nothing |
| KeyValueContexts.KeyValueContext.CreateSubContext | cpp/key_value_context.cc:147-161 | members chosen in rank order given, duplicates rejected, non-members get none and count nothing |
| KeyValueContexts.KeyValueContext.CollectiveKey | cpp/key_value_context.cc:123-140 | the key a collective uses names its operation, number and rank or root, and one collective is counted |
| KeyValueContexts.KeyValueContext.MakeDuplicate | cpp/key_value_context.cc:163-165 | the same members under a fresh prefix |
| KeyValueContexts.KeyValueContext.Split | cpp/key_value_context.cc:167-181 | given every rank's choice (what `SplitRuns.SplitReceives` shows the all_gather delivers): the context of this process's color, its members ordered by key, ties by rank; undefined color gets none |
| KeyValueContexts.KeyValueContext.TranslateRanks | cpp/key_value_context.cc:183-197 | each rank as the other context numbers it, or -1 |
| KeyValueContexts.SplitRanks | cpp/key_value_context.cc:174-179 | exactly the ranks of the color, sorted by key with ties by rank |
| KeyValueContexts.MembersAgree | cpp/key_value_context.cc:147-181 | processes of a context that make the same calls number each subgroup alike |
| SplitRuns.DecodeEncode | cpp/key_value_context.cc:167-171 | a color and key come back from the bytes they are sent as |
| SplitRuns.SplitReceives | cpp/key_value_context.cc:167-171 | in every interleaving a process past a split has the choice of every member, by rank |
| SplitRuns.SplitsAgree | cpp/key_value_context.cc:167-181 | in every interleaving, processes of a context that split it by one color take one and the same member order, by key with ties by rank, and count it alike, so the new context has one prefix |
| KeyValueContexts.SplitOrderUnique | cpp/key_value_context.cc:174-179 | that order is unique, so every process of a color computes the same one |
| CollectiveRuns.CallKeysApart | cpp/key_value_context.cc:116-145 | values of different calls, or different ranks of one call, have different keys |
| CollectiveRuns.StepKeepsGood | cpp/key_value_context.cc:116-145 | what every step of every process keeps |
| CollectiveRuns.CallsReturn | cpp/key_value_context.cc:116-145 | the n-th all_gather returns each rank's n-th contribution in rank order, a broadcast the root's |
| CollectiveRuns.NoneLeavesEarly | cpp/key_value_context.cc:130-134 | no process leaves an all_gather, so no barrier, before all members entered it |
| CollectiveRuns.NeverDeadlocked | cpp/key_value_context.cc:116-145 | members that issue the same collectives never wait for each other for good |
| CollectiveRuns.RunsEnd | cpp/key_value_context.cc:116-145 | every run is bounded by its calls |
| CollectiveRuns.StuckMeansDone | cpp/key_value_context.cc:116-145 | when nobody can move, every call has returned |
| VectorUnit.SlotAddress | cpp/tt_metal/hw/ckernels/blackhole/metal/llk_api/llk_sfpu/ckernel_sfpu_matmul_fp32.h:62-71 | the slot and column-group formulas address the tile layout |
| MatmulVector.LoadX | cpp/tt_metal/hw/ckernels/blackhole/metal/llk_api/llk_sfpu/ckernel_sfpu_matmul_fp32.h:130-138 | row k of B for a column group in every sub-row |
| MatmulVector.LoadR | cpp/tt_metal/hw/ckernels/blackhole/metal/llk_api/llk_sfpu/ckernel_sfpu_matmul_fp32.h:140-146 | column k of A in all lanes |
| MatmulVector.MatmulK | cpp/tt_metal/hw/ckernels/blackhole/metal/llk_api/llk_sfpu/ckernel_sfpu_matmul_fp32.h:119-155 | each of the 32 skewed accumulators takes its term of one k |
| MatmulVector.CalculateMatmul | cpp/tt_metal/hw/ckernels/blackhole/metal/llk_api/llk_sfpu/ckernel_sfpu_matmul_fp32.h:157-188 | after a k tile, lane (h, j) of accumulator (g, s) is the left fold so far of row col(h, j - s) and column col(g, j) |
| MatmulFinish.ColumnMaskIs | cpp/tt_metal/hw/ckernels/blackhole/metal/llk_api/llk_sfpu/ckernel_sfpu_matmul_fp32.h:195-206 | the shifts give all ones in one lane column and zeros elsewhere |
| MatmulFinish.Gather | cpp/tt_metal/hw/ckernels/blackhole/metal/llk_api/llk_sfpu/ckernel_sfpu_matmul_fp32.h:233-242 | masks gather, for each t, the lanes that hold four natural rows |
| MatmulFinish.TwoSlots | cpp/tt_metal/hw/ckernels/blackhole/metal/llk_api/llk_sfpu/ckernel_sfpu_matmul_fp32.h:250-270 | two transposes and the exclusive-or merge place the sub-rows, bit for bit |
| MatmulFinish.Finish | cpp/tt_metal/hw/ckernels/blackhole/metal/llk_api/llk_sfpu/ckernel_sfpu_matmul_fp32.h:208-277 | the natural tile: element (r, c) is the left fold in increasing k of fma(A[r][k], B[k][c], acc) |
| MatmulRuns.RunShares | ttnn/cpp/ttnn/operations/experimental/matmul_fp32/device/kernels/matmul_fp32_runs.hpp:8-16 | a run's tiles share their A row and never cross an output row |
| MatmulRuns.Reader | ttnn/cpp/ttnn/operations/experimental/matmul_fp32/device/kernels/dataflow/reader_matmul_fp32.cpp:41-90 | the page streams: one row of A per run (or tile) and one column of B per tile, the last k tile zeroed past K |
| MatmulRuns.ProductOfOperands | ttnn/cpp/ttnn/operations/experimental/matmul_fp32/device/kernels/dataflow/reader_matmul_fp32.cpp:41-90 | the pages that the reader takes for a tile are, tile by tile, the row of A and the column of B of that tile's batch (batch 0 of a B that is broadcast) |
| RowMajor.FlattenOrdered | ttnn/cpp/ttnn/operations/experimental/matmul_fp32/device/kernels/dataflow/reader_matmul_fp32.cpp:41-56 | row-major places come in the lexicographic order of their indices |
| MatmulRuns.PaddedDot | ttnn/cpp/ttnn/operations/experimental/matmul_fp32/device/kernels/dataflow/reader_matmul_fp32.cpp:28-31 | whatever memory holds past K, the fold over the padded tiles is the fold over K and then a term of two zeros for every place past it |
| MatmulRuns.ZeroTermsKeep | ttnn/cpp/ttnn/operations/experimental/matmul_fp32/device/kernels/dataflow/reader_matmul_fp32.cpp:28-31 | where adding such a term leaves a sum as it is, padding leaves the product as it is |
| MatmulRuns.ComputeTile | ttnn/cpp/ttnn/operations/experimental/matmul_fp32/device/kernels/compute/matmul_fp32.cpp:46-73 | one output tile from the buffers' fronts is the fold over all of its k tiles, and pops exactly its tiles |
| MatmulRuns.Compute | ttnn/cpp/ttnn/operations/experimental/matmul_fp32/device/kernels/compute/matmul_fp32.cpp:40-79 | the core's range of output tiles, each once, in order |
| MatmulRuns.CoreTiles | ttnn/cpp/ttnn/operations/experimental/matmul_fp32/device/kernels/compute/matmul_fp32.cpp:40-79 | reader and compute together, for all batch, Mt, K, Nt and any split: element (r, c) of tile (n, i, j) is the left fold over the logical K of A[n][32i + r][k] and B[n or 0][k][32j + c], tiles in row-major order, then the zero terms of the padding |
| TopKKeys.LargestKeysFollowTotalOrder | ttnn/cpp/ttnn/operations/reduction/topk/device/kernels/dataflow/topk_select.cpp:65-68 | keys compare as values do in totalOrder (section 5.10 of IEEE 754-2019) |
| TopKKeys.LargestKeysKeep | ttnn/cpp/ttnn/operations/reduction/topk/device/kernels/dataflow/topk_select.cpp:65-68 | the keys that a search for the largest compares are in the order of their values |
| TopKKeys.TotalOrderOfValues | ttnn/cpp/ttnn/operations/reduction/topk/device/kernels/dataflow/topk_select.cpp:65-68 | that order puts -NaN, -inf, -2, -1, -0, 0, 1, 2, inf and NaN in turn |
| TopKKeys.SmallestKeysFlip | ttnn/cpp/ttnn/operations/reduction/topk/device/kernels/dataflow/topk_select.cpp:65-68 | for the smallest k the order is reversed |
| TopKKeys.BitsOfKey | ttnn/cpp/ttnn/operations/reduction/topk/device/kernels/dataflow/topk_select.cpp:70-75 | the key gives its value's bits back |
| TopKOrder.BetterIsOrder | ttnn/cpp/ttnn/operations/reduction/topk/device/kernels/dataflow/topk_select.cpp:77-79 | better is a strict total order: key first, lower index among equals |
| TopKOrder.BestIsUnique | ttnn/cpp/ttnn/operations/reduction/topk/device/kernels/dataflow/topk_select.cpp:196-235 | the best-first list of the k best of a set is unique |
| TopKOrder.BestKept | ttnn/cpp/ttnn/operations/reduction/topk/device/kernels/dataflow/topk_select.cpp:229-232 | a full list is unchanged by an element that does not beat its last |
| TopKOrder.BestReplaced | ttnn/cpp/ttnn/operations/reduction/topk/device/kernels/dataflow/topk_select.cpp:229-232 | one that does goes in and the last goes out |
| TopKSelect.InsertAt | ttnn/cpp/ttnn/operations/reduction/topk/device/kernels/dataflow/topk_select.cpp:81-88 | in-place insertion is insertion into the best-first list with the last dropped |
| TopKSelect.ThresholdDecides | ttnn/cpp/ttnn/operations/reduction/topk/device/kernels/dataflow/topk_select.cpp:224-232 | for a later column the key comparison alone decides, ties included |
| TopKSelect.SelectSegment | ttnn/cpp/ttnn/operations/reduction/topk/device/kernels/dataflow/topk_select.cpp:203-238 | a segment's scan leaves its k best, padded with sentinels |
| TopKSelect.MergeStops | ttnn/cpp/ttnn/operations/reduction/topk/device/kernels/dataflow/topk_select.cpp:263-277 | stopping at the first candidate that does not beat the k-th loses nothing |
| TopKSelect.MergeList | ttnn/cpp/ttnn/operations/reduction/topk/device/kernels/dataflow/topk_select.cpp:272-277 | after a list is merged the best are those of both |
| TopKSelect.MergeRow | ttnn/cpp/ttnn/operations/reduction/topk/device/kernels/dataflow/topk_select.cpp:267-279 | after all lists, those of the whole row |
| TopKSelect.SelectRow | ttnn/cpp/ttnn/operations/reduction/topk/device/kernels/dataflow/topk_select.cpp:203-279 | for every row and every division into segments the result is exactly the k best, and no sentinel is left when k fits the row: distinct columns with the row's own bits, each before the next and before every column left out, by totalOrder of the bits (descending for the largest, ascending for the smallest) and then by lower column |
| TopKSelect.BestIsTopK | ttnn/cpp/ttnn/operations/reduction/topk/device/kernels/dataflow/topk_select.cpp:65-79 | the best-first list of candidates is that selection of the row's bits |
| TopKPlan.OneCoreEach | ttnn/cpp/ttnn/operations/reduction/topk/device/topk_select_program_factory.cpp:189-210 | every row of every column tile is one core's and no other's |
| TopKPlan.NoSegmentEmpty | ttnn/cpp/ttnn/operations/reduction/topk/device/topk_select_program_factory.cpp:88-91 | every segment has a tile |
| TopKPlan.RowsFit | ttnn/cpp/ttnn/operations/reduction/topk/device/topk_select_program_factory.cpp:92-93 | a core's rows fit rows_per_core |
| TopKPlan.PlanFits | ttnn/cpp/ttnn/operations/reduction/topk/device/topk_select_program_factory.cpp:44-98 | an accepted plan stays within the grid, the input budget and the candidate budget |
| TopKPlan.ReadsFit | ttnn/cpp/ttnn/operations/reduction/topk/device/kernels/dataflow/topk_select.cpp:186-202 | every 64 bytes that the scan of a core's row reads land inside the input budget |
| TopKPlan.ListsFit | ttnn/cpp/ttnn/operations/reduction/topk/device/kernels/dataflow/topk_select.cpp:239-262 | every candidate list that a segment sends lands inside the candidate budget |
| TopKPlan.WantedIsMost | ttnn/cpp/ttnn/operations/reduction/topk/device/topk_select_program_factory.cpp:79-89 | a row is cut into the largest number of segments for which every piece has a tile and a core for each row and the lists fit one core's 64 KB |
| TopKPlan.DivisionIsBest | ttnn/cpp/ttnn/operations/reduction/topk/device/topk_select_program_factory.cpp:90-93 | segments as narrow as that number allows, no more of them than the tiles need, as many row groups as rows and cores allow and as few rows per core as those allow |
| TopKPlan.AcceptedExactly | ttnn/cpp/ttnn/operations/reduction/topk/device/topk_select_program_factory.cpp:59-96 | a call takes the path if and only if k is in range, every tile row has a core, the width is over 31 tiles or at most two tile rows and k of 32 are asked for, and a core's rows times tiles are at most 1024 |
| TopKPlan.AcceptedForSmaller | ttnn/cpp/ttnn/operations/reduction/topk/device/topk_select_program_factory.cpp:44-98 | a plan accepted for k is accepted for every smaller k |
| TopKPlan.PlanIsSound | ttnn/cpp/ttnn/operations/reduction/topk/device/topk_select_program_factory.cpp:82-91 | every accepted plan has segments, groups and tiles as the rows above need |
| TopKOutput.WriteRow | ttnn/cpp/ttnn/operations/reduction/topk/device/kernels/dataflow/topk_select.cpp:99-120 | a row's face rows hold its k results and zeros past them; nothing else changes |
| TopKOutput.ZeroPaddingRows | ttnn/cpp/ttnn/operations/reduction/topk/device/kernels/dataflow/topk_select.cpp:122-140 | exactly the padding rows are zeroed |
| TileFaces.RowAndColumnOfPlace | ttnn/cpp/ttnn/operations/reduction/topk/device/kernels/dataflow/topk_select.cpp:114-117 | places of four faces and (row, column) pairs correspond one to one |
| TileFaces.FacesInOrder | ttnn/cpp/ttnn/operations/reduction/topk/device/kernels/dataflow/topk_select.cpp:114-117 | a tile is its four faces in order, each row by row |
| TopKProtocol.MergesAllLists | ttnn/cpp/ttnn/operations/reduction/topk/device/kernels/dataflow/topk_select.cpp:253-263 | in every interleaving a merger merges only after all its segments' lists are in place |
| TopKProtocol.WritesFinishedTiles | ttnn/cpp/ttnn/operations/reduction/topk/device/kernels/dataflow/topk_select.cpp:283-299 | the owner writes its tiles only when every row, padding included, was written exactly once |
| TopKProtocol.NoRowTwice | ttnn/cpp/ttnn/operations/reduction/topk/device/kernels/dataflow/topk_select.cpp:170-177 | no row is written twice |
| TopKProtocol.NeverDeadlocked | ttnn/cpp/ttnn/operations/reduction/topk/device/kernels/dataflow/topk_select.cpp:251-299 | until the tiles are out some core can go on |
| TopKSelect.BestBits | ttnn/cpp/ttnn/operations/reduction/topk/device/kernels/dataflow/topk_select.cpp:65-76 | the value written for a result is the row's own value at the index written |
| TopKTileRow.WriteGroup | ttnn/cpp/ttnn/operations/reduction/topk/device/kernels/dataflow/topk_select.cpp:203-279 | a group's cores select and write exactly the group's rows, each with its k best |
| TopKTileRow.WritePadding | ttnn/cpp/ttnn/operations/reduction/topk/device/kernels/dataflow/topk_select.cpp:170-177 | the owner zeroes exactly the padding rows of both tiles |
| TopKTileRow.WrittenIsRight | ttnn/cpp/ttnn/operations/reduction/topk/device/kernels/dataflow/topk_select.cpp:203-299 | in every interleaving a row that was written holds its results, whatever is written later |
| TopKTileRow.FinishedTileRow | ttnn/cpp/ttnn/operations/reduction/topk/device/kernels/dataflow/topk_select.cpp:283-299 | in every interleaving, when the owner writes its tiles out, the first k values and columns of each row are its k largest (or smallest) by totalOrder of the bits, ties by lower column, in order, with nothing left out before them; everything past k or past the rows is zero |
| QuantizeMaxima.MaxBound | ttnn/cpp/ttnn/operations/experimental/quantize_rows/device/kernels/compute/quantize_rows_sfpu.h:70-75 | the signed maximum of two magnitudes has exactly their common bounds |
| QuantizeMaxima.LoadKeepsOrder | ttnn/cpp/ttnn/operations/experimental/quantize_rows/device/kernels/compute/quantize_rows_sfpu.h:57-68 | reading subnormals as zero keeps the order of magnitudes |
| QuantizeMaxima.FoldAbsmax | ttnn/cpp/ttnn/operations/experimental/quantize_rows/device/kernels/compute/quantize_rows_sfpu.h:94-109 | each accumulator lane becomes the maximum of itself and the |x| bits its bands hold |
| QuantizeMaxima.Lanes8Max | ttnn/cpp/ttnn/operations/experimental/quantize_rows/device/kernels/compute/quantize_rows_sfpu.h:79-84 | three rotations give every lane its 8-lane row's maximum |
| QuantizeMaxima.FinishPartial | ttnn/cpp/ttnn/operations/experimental/quantize_rows/device/kernels/compute/quantize_rows_sfpu.h:111-122 | row m's maximum in both vectors of columns 0-15 |
| QuantizePartial.SeenIsRows | ttnn/cpp/ttnn/operations/experimental/quantize_rows/device/kernels/compute/quantize_rows.cpp:59-68 | what a row's lanes have seen is row m of all packed input tiles, the partial last dense tile included |
| QuantizePartial.RowMaxima | ttnn/cpp/ttnn/operations/experimental/quantize_rows/device/kernels/compute/quantize_rows.cpp:59-74 | phase 1: row m of the part is the maximum of row m over exactly the core's input tiles |
| QuantizeDivisor.FoldGather | ttnn/cpp/ttnn/operations/experimental/quantize_rows/device/kernels/compute/quantize_rows_sfpu.h:124-136 | the valid bands of a gather tile into the accumulators |
| QuantizeDivisor.GatheredIsRows | ttnn/cpp/ttnn/operations/experimental/quantize_rows/device/kernels/compute/quantize_rows_sfpu.h:282-298 | accumulator lanes gather what the whole row has, whatever the shares |
| QuantizeDivisor.IsTheRowMax | ttnn/cpp/ttnn/operations/experimental/quantize_rows/device/kernels/compute/quantize_rows_sfpu.h:65-109 | the bound characterisation is the fold over the row's elements |
| QuantizeDivisor.UnpackedElement | ttnn/cpp/ttnn/operations/experimental/quantize_rows/device/kernels/compute/quantize_rows_sfpu.h:57-60 | a tile's words in memory as lanes of its vectors |
| QuantizeScale.SpreadScale | ttnn/cpp/ttnn/operations/experimental/quantize_rows/device/kernels/compute/quantize_rows_sfpu.h:161-192 | every band of the divisor gets its accumulator band's scale in all vectors |
| QuantizeScale.MakeDivisor | ttnn/cpp/ttnn/operations/experimental/quantize_rows/device/kernels/compute/quantize_rows_sfpu.h:282-298 | row r of the divisor is the scale of row r mod stride's maximum over the whole row |
| QuantizeTiles.GatherRows | ttnn/cpp/ttnn/operations/experimental/quantize_rows/device/kernels/compute/quantize_rows_sfpu.h:206-227 | data rows gathered in place, each into one vector, none overwritten unread |
| QuantizeTiles.ScatterRows | ttnn/cpp/ttnn/operations/experimental/quantize_rows/device/kernels/compute/quantize_rows_sfpu.h:231-254 | the reverse, last band first |
| QuantizeTiles.QuantizeTiles | ttnn/cpp/ttnn/operations/experimental/quantize_rows/device/kernels/compute/quantize_rows_sfpu.h:310-363 | either way the data rows hold convert(x / d) elementwise, and the divisor's data rows survive |
| QuantizePlan.StrideIsLeast | ttnn/cpp/ttnn/operations/experimental/quantize_rows/device/quantize_rows_device_operation.cpp:23 | the stride is the least of 4, 8, 16 and 32 that holds the rows |
| QuantizePlan.LimitIsMost | ttnn/cpp/ttnn/operations/experimental/quantize_rows/device/quantize_rows_device_operation.cpp:29-33 | the cores allowed are as many as the dense tiles, the grid and 48 (32 past eight rows) allow |
| QuantizePlan.QuantizeRowsPlan | ttnn/cpp/ttnn/operations/experimental/quantize_rows/device/quantize_rows_device_operation.cpp:19-46 | the cores are a smallest rectangle of the grid with a core for every share, widest first |
| QuantizePlan.PlanSharesFit | ttnn/cpp/ttnn/operations/experimental/quantize_rows/device/quantize_rows_device_operation.cpp:35-46 | no core gets more dense tiles than the allowed number of cores would need |
| QuantizePlan.ShareTiles | ttnn/cpp/ttnn/operations/experimental/quantize_rows/device/quantize_rows_program_factory.cpp:193-201 | shares follow one another and end at the row's last tile, with the host's last_count |
| FaceCopies.CopyRows | ttnn/cpp/ttnn/operations/experimental/quantize_rows/device/kernels/dataflow/reader_quantize_rows.cpp:72-86 | rows within a face, moved as two runs, move elementwise and change nothing else |
| QuantizeDense.PackTiles | ttnn/cpp/ttnn/operations/experimental/quantize_rows/device/kernels/dataflow/reader_quantize_rows.cpp:64-89 | each input tile's data rows are in their dense rows |
| QuantizeDense.UnpackTiles | ttnn/cpp/ttnn/operations/experimental/quantize_rows/device/kernels/dataflow/writer_quantize_rows.cpp:41-69 | each tile gets its dense rows back; other rows and tiles keep what they held |
| QuantizeExchange.StepKeepsGood | ttnn/cpp/ttnn/operations/experimental/quantize_rows/device/kernels/dataflow/reader_quantize_rows.cpp:91-124 | what every step of the exchange keeps |
| QuantizeExchange.FoldsAfterAllLanded | ttnn/cpp/ttnn/operations/experimental/quantize_rows/device/kernels/dataflow/reader_quantize_rows.cpp:110-124 | in every interleaving, a core that hands its gather buffer over has every core's part in its slot |
| QuantizeExchange.NeverDeadlocked | ttnn/cpp/ttnn/operations/experimental/quantize_rows/device/kernels/dataflow/reader_quantize_rows.cpp:110-124 | until every core has passed, some step is possible |
| QuantizeExchange.RunsEnd | ttnn/cpp/ttnn/operations/experimental/quantize_rows/device/kernels/dataflow/reader_quantize_rows.cpp:91-124 | every run makes progress and ends |
| QuantizeExchange.Carry | ttnn/cpp/ttnn/operations/experimental/quantize_rows/device/kernels/dataflow/reader_quantize_rows.cpp:91-124 | under any schedule the exchange can be carried through: it is a run, and each core's buffer is the one it had when it passed |
| QuantizeRows.SlotWordOf | ttnn/cpp/ttnn/operations/experimental/quantize_rows/device/kernels/dataflow/reader_quantize_rows.cpp:93-109 | the pieces of a slot are the part's rows, 16 words each |
| QuantizeRows.HandedOver | ttnn/cpp/ttnn/operations/experimental/quantize_rows/device/kernels/dataflow/reader_quantize_rows.cpp:110-124 | in every run of the exchange, a core that hands its buffer over has every core's maxima in it |
| QuantizeRows.ExchangeMaxima | ttnn/cpp/ttnn/operations/experimental/quantize_rows/device/kernels/dataflow/reader_quantize_rows.cpp:91-124 | every core's own buffer has every core's maxima, under any schedule and whatever the buffers held before |
| QuantizeRows.SharesAreRow | ttnn/cpp/ttnn/operations/experimental/quantize_rows/device/quantize_rows_program_factory.cpp:193-201 | the shares together are the whole row |
| QuantizeRows.PhaseOne | ttnn/cpp/ttnn/operations/experimental/quantize_rows/device/kernels/compute/quantize_rows.cpp:59-74 | a core sends exactly its row maxima |
| QuantizeRows.FinishCore | ttnn/cpp/ttnn/operations/experimental/quantize_rows/device/kernels/compute/quantize_rows.cpp:76-104 | a core's tiles of the output are coded, earlier cores' kept |
| QuantizeRows.QuantizeRow | ttnn/cpp/ttnn/operations/experimental/quantize_rows/device/kernels/compute/quantize_rows.cpp:32-105 | for every row count, row length, grid, and order of the exchange, each element is coded under the scale of the maximum |x| bits of its whole row, and the scale tile holds the scales |
| QuantizeResult.QuantizedRow | ttnn/cpp/ttnn/operations/experimental/quantize_rows/device/kernels/compute/quantize_rows_sfpu.h:161-192 | what that leaves in a row, without the kernel's functions: the peak is the largest magnitude that occurs in the row, the scale the larger of peak over the format's maximum and the least scale (NaN for a NaN), and every element the conversion of its quotient by that scale |
| QuantizeResult.ScaleRow | ttnn/cpp/ttnn/operations/experimental/quantize_rows/device/kernels/compute/quantize_rows_sfpu.h:282-298 | every column of the scale tile's row is that scale |
| Words32.RotateBack | ttnn/cpp/ttnn/operations/experimental/rng_bits/device/kernels/compute/rng_bits.cpp:47-50 | rotating on by the rest of the word gives it back |
| Words32.ShiftsOfRotation | ttnn/cpp/ttnn/operations/experimental/rng_bits/device/kernels/compute/rng_bits.cpp:47-50 | the two shifts of the rotation |
| Words32.XorBack | ttnn/cpp/ttnn/operations/experimental/rng_bits/device/kernels/compute/rng_bits.cpp:54-63 | exclusive or twice gives the word back |
| XorOfBytes.XorIsOfBytes | ttnn/cpp/ttnn/operations/experimental/rng_bits/device/kernels/compute/rng_bits.cpp:54-63 | exclusive or is that of the words' bytes |
| Threefry.ThreefryInjective | ttnn/cpp/ttnn/operations/experimental/rng_bits/device/kernels/compute/rng_bits.cpp:53-84 | under one key distinct counters have distinct words |
| Threefry.ThreefryWords | ttnn/cpp/ttnn/operations/experimental/rng_bits/device/kernels/compute/rng_bits.cpp:65-84 | the unrolled rounds are the 20 rounds with a key injection every four |
| Philox.MulHiLo | ttnn/cpp/ttnn/operations/experimental/rng_bits/device/kernels/compute/rng_bits.cpp:127-144 | the 23-bit partial products give the exact 64-bit product of any two words |
| Philox.HalvesMakeRound | ttnn/cpp/ttnn/operations/experimental/rng_bits/device/kernels/compute/rng_bits.cpp:234-244 | two half rounds and the renaming are one Philox round |
| Philox.HalfMakesFirst | ttnn/cpp/ttnn/operations/experimental/rng_bits/device/kernels/compute/rng_bits.cpp:246-248 | the last half round alone gives the first word |
| KnownAnswers.PhiloxAnswer | ttnn/cpp/ttnn/operations/experimental/rng_bits/device/kernels/compute/rng_bits.cpp:224-249 | the published answer of Philox-4x32-10 on the digits of pi |
| KnownAnswers.ThreefryAnswer | ttnn/cpp/ttnn/operations/experimental/rng_bits/device/kernels/compute/rng_bits.cpp:53-84 | the published answer of Threefry-2x32-20 on the digits of pi |
| RngTiles.ElementOfLane | ttnn/cpp/ttnn/operations/experimental/rng_bits/device/kernels/compute/rng_bits.cpp:25-30 | face, vector and lane of an element lead back to it |
| RngTiles.LaneOfElement | ttnn/cpp/ttnn/operations/experimental/rng_bits/device/kernels/compute/rng_bits.cpp:25-30 | and the element of a lane leads back to the lane: a bijection onto (row, column) |
| RngTiles.LaneIndex | ttnn/cpp/ttnn/operations/experimental/rng_bits/device/kernels/compute/rng_bits.cpp:30-45 | a lane's index is its element's row-major index, modulo 2^32 |
| RngState.AdvancedCounter | ttnn/cpp/ttnn/operations/experimental/rng_bits/device/kernels/dataflow/rng_bits_mover.cpp:38-41 | the new state is the 64-bit counter plus one modulo 2^64, key kept |
| RngState.AdvanceState | ttnn/cpp/ttnn/operations/experimental/rng_bits/device/kernels/dataflow/rng_bits_mover.cpp:36-47 | the page written is the advanced state and the entry is restored |
| RngState.UsesApart | ttnn/cpp/ttnn/operations/experimental/rng_bits/device/kernels/compute/rng_bits.cpp:200-207 | under one seed different counters give different stream keys or counters |
| RngState.NoUseTwice | ttnn/cpp/ttnn/operations/experimental/rng_bits/device/kernels/compute/rng_bits.cpp:200-207 | over up to 2^64 successive calls no (key, counter) pair is used twice, over all elements |
| RngKernel.IndexTile | ttnn/cpp/ttnn/operations/experimental/rng_bits/device/kernels/compute/rng_bits.cpp:111-125 | a tile of its elements' indices |
| RngKernel.PhiloxHalfRound | ttnn/cpp/ttnn/operations/experimental/rng_bits/device/kernels/compute/rng_bits.cpp:146-170 | one word's product and another's mix over the tile, padding rows left alone |
| RngKernel.PhiloxTile | ttnn/cpp/ttnn/operations/experimental/rng_bits/device/kernels/compute/rng_bits.cpp:224-249 | every processed element is the first word of Philox-4x32-10 on its counter |
| RngKernel.ThreefryTile | ttnn/cpp/ttnn/operations/experimental/rng_bits/device/kernels/compute/rng_bits.cpp:86-109 | every processed element is the first Threefry word of (i, w1) |
| RngKernel.Compute | ttnn/cpp/ttnn/operations/experimental/rng_bits/device/kernels/compute/rng_bits.cpp:175-257 | a core's tiles in order, the stream key derived once |
| RngKernel.ElementOfTile | ttnn/cpp/ttnn/operations/experimental/rng_bits/device/kernels/compute/rng_bits.cpp:210-217 | a logical element's index from its tile's base, exact below 2^32, and never in a padding row |
| RngKernel.RngBits | ttnn/cpp/ttnn/operations/experimental/rng_bits/device/kernels/dataflow/rng_bits_mover.cpp:17-58 | a whole call over any split of tiles: each logical element i has the word of its key and counter, the state is restored and the new state advanced |
| RngResult.PhiloxResult | ttnn/cpp/ttnn/operations/experimental/rng_bits/device/kernels/compute/rng_bits.cpp:200-249 | what that leaves at element (b, r, c): the first Philox word of (its row-major place, w1, 0, h1) under the seed, in the page, vector and lane of that element |
| RngResult.ThreefryResult | ttnn/cpp/ttnn/operations/experimental/rng_bits/device/kernels/compute/rng_bits.cpp:175-207 | likewise the first Threefry word of (its row-major place, w1) under the seed's hash of (h1, parity constant) |
| QkvUnits.BuildUnits | ttnn/cpp/ttnn/operations/transformer/split_qkv_norm_rope_decode/split_qkv_norm_rope_decode.cpp:183-213 | the host's loops make exactly the listed units, in order |
| QkvUnits.QCoveredOnce | ttnn/cpp/ttnn/operations/transformer/split_qkv_norm_rope_decode/split_qkv_norm_rope_decode.cpp:183-213 | every row of every tile of the padded q output is written by exactly one unit |
| QkvUnits.KvCoveredOnce | ttnn/cpp/ttnn/operations/transformer/split_qkv_norm_rope_decode/split_qkv_norm_rope_decode.cpp:199-212 | likewise for the kv output |
| QkvUnits.QTileParts | ttnn/cpp/ttnn/operations/transformer/split_qkv_norm_rope_decode/split_qkv_norm_rope_decode.cpp:194-197 | every tile of the q output is a token's, a tile row's and a column's |
| QkvUnits.KvTileParts | ttnn/cpp/ttnn/operations/transformer/split_qkv_norm_rope_decode/split_qkv_norm_rope_decode.cpp:199-212 | every tile of the kv output is a token's, in its k or its v half |
| QkvWriter.WriteUnit | ttnn/cpp/ttnn/operations/transformer/split_qkv_norm_rope_decode/device/kernels/dataflow/writer_split_qkv_norm_rope_decode.cpp:51-76 | a unit writes its head rows, zero rows and zero tiles, each element once, and nothing else |
| QkvSplit.ReadUnit | ttnn/cpp/ttnn/operations/transformer/split_qkv_norm_rope_decode/device/kernels/dataflow/reader_split_qkv_norm_rope_decode.cpp:104-144 | head i's row of the token in row i of the unit's tiles, zeros elsewhere |
| QkvSplit.RowsOfUnit | ttnn/cpp/ttnn/operations/transformer/split_qkv_norm_rope_decode/split_qkv_norm_rope_decode.cpp:188-210 | row r of a unit is its head's output row, from the source tile and stride of the unit |
| QkvSplit.RunUnit | ttnn/cpp/ttnn/operations/transformer/split_qkv_norm_rope_decode/device/kernels/dataflow/writer_split_qkv_norm_rope_decode.cpp:36-84 | one unit changes only its own output, by its own rows |
| QkvSplit.RunCores | ttnn/cpp/ttnn/operations/transformer/split_qkv_norm_rope_decode/split_qkv_norm_rope_decode.cpp:317-337 | round-robin runs every unit once, and both outputs hold at every element the right head's value or zero, written exactly once |
| QkvResult.QResult | ttnn/cpp/ttnn/operations/transformer/split_qkv_norm_rope_decode/split_qkv_norm_rope_decode.cpp:183-213 | what that leaves of q as a [tokens, heads, width] matrix: element d of head h is that of the normed and rotated row that begins at the head's column of the token's projection, and zero past the head |
| QkvResult.KvResult | ttnn/cpp/ttnn/operations/transformer/split_qkv_norm_rope_decode/split_qkv_norm_rope_decode.cpp:199-212 | and of kv: the normed and rotated k head, then the v head as it was |
| QkvNorm.NormedIs | ttnn/cpp/ttnn/operations/transformer/split_qkv_norm_rope_decode/device/kernels/compute/split_qkv_norm_rope_decode.cpp:62-110 | an element of the norm: over the root of the mean square plus epsilon, times its weight, rounded to BF16 |
| QkvNorm.RotatedByHalves | ttnn/cpp/ttnn/operations/transformer/split_qkv_norm_rope_decode/device/kernels/compute/split_qkv_norm_rope_decode.cpp:110-158 | of the halves x and y of the rotated part, the first becomes x cos - y sin and the second y cos + x sin; the rest of any row is its norm |
| QkvNorm.ComputeRow | ttnn/cpp/ttnn/operations/transformer/split_qkv_norm_rope_decode/device/kernels/compute/split_qkv_norm_rope_decode.cpp:62-158 | the kernel's loops over a head's tiles, squares, norm and rotation, leave exactly that row |
| QkvNorm.ZeroRowKept | ttnn/cpp/ttnn/operations/transformer/split_qkv_norm_rope_decode/device/kernels/compute/split_qkv_norm_rope_decode.cpp:62-158 | under norm and rotation as the kernel orders them, a row of zeros stays zero if and only if epsilon is positive in BF16 and the weights and the token's cos and sin are finite |
| QkvNorm.TinyEpsilonFails | ttnn/cpp/ttnn/operations/transformer/split_qkv_norm_rope_decode/split_qkv_norm_rope_decode.cpp:286-287 | a positive epsilon that is zero in BF16 makes every element of a row of zeros infinite or NaN, whatever the weights and angles |
| QkvNorm.PaddingFails | ttnn/cpp/ttnn/operations/transformer/split_qkv_norm_rope_decode/split_qkv_norm_rope_decode.cpp:286-287 | an input that fails, in an arithmetic that meets every law assumed: weights and cos of one, sin of zero and that epsilon |
| QkvPadding.QPaddingIsZero | ttnn/cpp/ttnn/operations/transformer/split_qkv_norm_rope_decode/device/kernels/dataflow/writer_split_qkv_norm_rope_decode.cpp:7-11 | in the finished q output, a token's rows between the last head and the end of its group of eight are zero if and only if every group is full or the condition of `ZeroRowKept` holds |
| QkvPadding.KPaddingIsZero | ttnn/cpp/ttnn/operations/transformer/split_qkv_norm_rope_decode/device/kernels/dataflow/writer_split_qkv_norm_rope_decode.cpp:7-11 | likewise for the k half of the kv output |
| QkvPadding.VPaddingIsZero | ttnn/cpp/ttnn/operations/transformer/split_qkv_norm_rope_decode/device/kernels/dataflow/writer_split_qkv_norm_rope_decode.cpp:7-11 | the v half's padding rows are zero on every input |

## Left out

- Rounding and accuracy: the matmul's multiply-add, float division and fp8 conversion are any functions; the operations of RMS norm and rotary embedding are any that treat zeros, infinities and NaNs as IEEE 754 does, with or without subnormals. Only order, placement and what becomes of zeros are claimed.
- The other rows of the fused QKV compute kernel's tiles: `QkvNorm.ComputeRow` runs the tile loops for one head's row, whose elements no other row's affect.
- `KeyValueContexts.KeyValueContext.Split`: the gathered choices are an argument; that an all_gather delivers them in every interleaving is `SplitRuns.SplitReceives`.
- `SplitRuns.SplitsAgree` orders a process's splits and subgroups of one context; what other contexts do between them is not part of that order.
- Floating reductions of the scatter (`reduce_f32`, the bf16 and f16 conversions): a reduction is any function of the current and the new element.
- Hardware primitives: a NoC transfer is a copy, a barrier waits for all of them, vector moves are lane moves, and replay buffers, load macros and scheduling are not modelled.
- Buffers between a reader and its compute kernel: modelled as streams in order, except the scatter ring and the exchanges, where blocking is the point.
- Complex operands of the gather pattern: covered as one more trailing offset dimension.
- Type checks of the gather pattern (integer indices, converted ranks) and the rejections its own constraints rule out (unmatched offset dims, a missing index dim).
- Index casts to 32 bits: start indices are integers, compared signed or unsigned as decoded.
- The scatter pattern's update-computation matching and its unary unrolling.
- Blocking gets that time out, the TCP store behind put and get, and std::async's scheduling: a get returns once the key is there.
- Half-height output tiles of rng_bits: whole tiles are packed.
- `RngKernel.ThreefryTile`: padding rows of a tile keep whatever DST held, so nothing is claimed of them.
- Float loads in quantize_rows read subnormals as zero, as the kernel's own note on raw loads says; magnitudes are compared after that.
- BF16 input tiles of quantize_rows: elements are modelled after the unpacker widened them.
- Aligned windows of the QKV reader: a head's row is read directly, not through the scratch window.
- `validate_*` functions: used only for what the kernels require of their callers.
- `state_pool_copy`, the qkv_heads variant, FusedMoeEp, the fusing passes and the Python files: weaker repeats of these arguments, or calls to code that is not shown.
