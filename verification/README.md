# A verified model of EDDL's graph, scheduling and index machinery

EDDL is a deep-learning library. This project models the parts of it that decide *what is computed
where and when*, and leaves the numeric kernels as arbitrary functions:

- **Layer graphs and nets** (`graphs.dfy`, `net.dfy`): collecting the layers of a net by walking
  from its inputs and its outputs, and sorting them forward and backward by counting links. A layer
  pointer is an index into tables of parent and child lists, in which a layer may occur several times.
- **Training steps** (`training.dfy`, `nettrain.dfy`, `gradients.dfy`): forward and backward passes
  over the sorted layers, with deltas that are allocated on demand and, at `mem_level > 0`, freed after
  use; a step from the links of the layers on; the chain rule.
- **Recurrent nets** (`unroll.dfy`, `recurrent.dfy`): unrolling a recurrent encoder into one row of
  layer copies per time step, then building, sorting, feeding and running the unrolled net.
- **The data generator** (`datagen.dfy`, `sharding.dfy`): producer threads and a consumer around a
  ring buffer, one atomic step per semaphore operation; the shuffled batch list, its division among
  processes and the byte ranges of batches in the file.
- **Address tables** (`arithmetic.dfy`, `addresses.dfy`, `tables.dfy`, `tiling.dfy`,
  `reduction.dfy`): slicing, permuting, tiling, repeating and reducing tensors of any rank through
  lookup tables.
- **Data parallelism** (`devices.dfy`, `distributed.dfy`, `fitruns.dfy`): batches cut into slices for
  the devices of one process, and training on several processes with periodic weight averaging.

`wrappers.dfy` and `sequences.dfy` hold shared vocabulary. `dafny verify dfyconfig.toml` checks
everything.

## How to read the model

- Methods follow the loops of the source; each is proved against a function or predicate, and the
  theorems are lemmas about those, or postconditions that compose several methods.
- Layer functions, losses and what a backward makes of its parents' deltas are the fields of `Training.Kernel`; nothing is
  assumed of them. Random numbers, training results, times and interleavings are parameters, so
  every statement holds for all of them.
- Integers are unbounded: the widths of C++ `int` and `unsigned int` and their overflow are not
  modelled. Where the source subtracts or divides, the operands are non-negative in the model too.
- Thrown errors and calls of `msg` (which throws) are a Boolean result.

## Main results

1. `Nets.Net.Assemble` collects exactly the layers reachable from the inputs without passing through
   an output, together with the ancestors of the outputs, and succeeds exactly when the parent links
   inside the net have no cycle. `Nets.Net.Fts` and `Bts` return a permutation of the layers with
   every parent (child) first, exactly when there is no cycle, and `MakeGraph` needs no second check.
2. `Training.LowMemoryRefinesFull`: with and without saving memory, every backward call of a training
   step is given the same delta, when every layer leads to an output.
   `Training.Trainer.TrainStep` says exactly when a step dereferences a delta that does not exist.
   `TrainedNets.BuildAndTrain` states both from the links of the layers on, through collecting,
   sorting and training. `Gradients.GradientStep`: where layers add to the deltas of their parents,
   every backward call is given the loss delta of its layer plus all that the backward calls of the
   step add to it over the links of the net.
3. `RecurrentNets.ForwardRecurrent`: unrolling, building, feeding and running a recurrent net gives,
   at each of the last steps, the values of the recurrence in which a recurrent layer takes from the
   step before what the code's lookup by position finds. It fails exactly when a layer other than an
   input has a parent outside the net. `RecurrentNets.MeaningKeptIff`: this is the recurrence "parents
   now, itself one step before", whatever the layers compute, **if and only if** every recurrent layer
   comes after all the inputs in the reordered layers; `Unrolling.TimelyIff` says for which nets that
   is, and `RecurrentNets.ShowsAnother` runs one for which it is not.
4. `DataGenerator.RunsComplete` and `StuckMeansDone`: for any number of threads and any buffer size,
   every interleaving is finite, never deadlocks before all batches are delivered, and claims every
   index once. `OrderedIffSerial`: batches arrive in order, and no slot is copied while it is being
   loaded, in every interleaving **if and only if** there is at most one thread, one slot or one
   batch. `ParallelRace` gives the interleaving that fails otherwise, for every larger configuration.
   `Sharding.AllBatchesDelivered` joins this with the shuffle and the division among processes.
5. The tables: `Tables.SelectionTable`, `Tables.PermuteRoundTrip`, `Tables.MoveAxisRoundTrip`,
   `Tiling.TileDescriptor.Build`, `Tiling.RepeatDescriptor.Build`, `Reductions.Groups`,
   `Reductions.BothMaps` and `Reductions.ForwardOfReverse` state, for every rank and shape, which
   address each cell of a table holds and that every cell is written once. `Tables.EntryInNumbers` and
   `ShapeInNumbers` say which indices an entry selects and when it is accepted. `Tables.WriteThenRead`:
   writing through an index list and reading back returns what was written.
6. `DistributedFit`: in every run all processes call the same collectives in the same order
   (`SameCollectives`), are never left waiting (`NeverStuck`), have equal weights after every
   synchronisation and at the end of every epoch (`SyncAgrees`, `EpochEndAgrees`), and synchronise
   as often as the batches divided by the period, rounded up (`SyncsPerEpoch`). `PeriodExact`,
   `GrowingPeriod` and `ShrinkingPeriod` say which period that is, and `PeriodBounded` when it stays
   within its bounds; `PeriodSteps` says how every step of every run changes it, under every policy.
   `FitRuns.RootWeights`: training starts from the weights of process 0. `FitRuns.RunsEnd` bounds every run and says that it can be continued exactly
   until all processes are done; `FitRuns.CollectivesExact` lists the collectives called. With a single
   process there are none, and the period stays as it is (`FitRuns.OneProcess`).

## What the code does otherwise than one might expect

- The semaphores of the data generator count completed loads, not which slot they filled. With two or
  more threads, two or more slots and two or more batches the consumer can therefore copy a slot that
  is still being loaded (`DataGenerator.ParallelRace`).
- A range that stops at 0 is read as one that stops at the end of the axis, because the stop is
  decremented before negative indices are wrapped (`Tables.RangeIsHalfOpen`).
- With `keepdims` the output shape of a reduction is the whole input shape, so `size_reduction` is 1
  and does not divide the cells of the reverse table into groups unless nothing is really reduced
  (`Reductions.ReduceDescriptor.SizeReductionDivides`).
- `get_reduction_map` ignores axes out of range, which `ReduceDescriptor2::build` rejects; the two
  tables agree whenever the latter succeeds (`Reductions.BothMaps`).
- An input layer's `free_delta` zeroes its delta instead of freeing it, and fails when there is none;
  `Training.Trainer.TrainStep` counts this among the failing cases.
- `prepare_recurrent_enc` lists `tinr` input by input while the unrolled net lists its inputs step by
  step, and they are matched by position. Step j of input i is put at i * inl + j and read at
  j * |lin| + i, and these agree for all i and j if and only if there is at most one input or one step
  (`RecurrentNets.PositionsAgreeIff`); only then is every step fed its own inputs
  (`RecurrentNets.FeedOrderIff`). `RecurrentNets.ForwardFlat` says what the net computes from the flat
  list in either case, and `ForwardRecurrent` what it computes from inputs given step by step.
- `nlayers[i-1][j]` is taken for the previous copy of the layer at position j. In a net where some
  recurrent layer comes before an input in the reordered layers it is the copy of another layer
  (`Unrolling.OwnPastIff`, `RecurrentNets.LinksToAnother`), and the recurrence is another one
  (`RecurrentNets.ShowsAnother`). The lookup never leaves the row (`Unrolling.PastInReach`).
- Started with one process, the distributed mode trains like the other: `check_MPI` makes every
  function return before it averages, broadcasts or changes the period (`FitRuns.OneProcess`).
- A layer that is collected from the inputs and feeds nothing makes the training step fail
  (`TrainedNets.DanglingFails`).
- With several devices, a one-dimensional output is collected from the first device alone
  (`DeviceNets.SplitLayer.Collect`).

## Model

| member | source | states |
|---|---|---|
| Graphs.GreedyIsOrdered | src/net/net_build.cpp:52-67 | an order in which each layer is picked when all its in-net parents are placed lists every parent before its child and no layer twice |
| Graphs.OrderedIsAcyclic | src/net/net_build.cpp:52-67 | if all layers can be placed that way, no directed cycle runs inside the net |
| Graphs.StuckMeansCycle | src/net/net_build.cpp:54-58 | if layers remain and none is ready, the net contains a directed cycle, whatever was placed before |
| Graphs.AcyclicBothWays | src/net/net_build.cpp:228-232 | parent links without a cycle inside the net mean child links without one, so the backward sort cannot fail after the forward sort |
| Graphs.SortOfSorted | src/net/net.cpp:107-114 | sorting layers already kept in forward order changes nothing |
| Graphs.SortedStandsFor | src/net/net.cpp:107-114 | the sorted list has the same members and the same cycles as the layers it was sorted from |
| Graphs.MissingStep | src/net/net_build.cpp:64-66 | placing a layer lowers a child's count of missing parents by the number of times the child lists it |
| Graphs.MissingZero | src/net/net_build.cpp:56 | the count is zero exactly when every in-net parent has been placed |
| Nets.LowerCounters | src/net/net_build.cpp:64-66 | after the nested loops every counter is the number of missing parents again, repeated edges included |
| Nets.CountingSort | src/net/net_build.cpp:34-68 | succeeds exactly when the links inside the net are acyclic, and then picks the first ready layer at every step |
| Nets.Net.Fts | src/net/net_build.cpp:34-68 | success if and only if acyclic; the result is a permutation of the layers with parents first; a list already in order is kept |
| Nets.Net.Bts | src/net/net_build.cpp:74-108 | the same for child links |
| Nets.Net.Walk | src/net/net.cpp:231-245 | terminates on any graph and adds exactly the layers reachable without going on from a cut layer or a layer seen before |
| Nets.Net.WalkBack | src/net/net.cpp:248-258 | terminates on any graph and adds exactly the ancestors not reached before |
| Nets.ExploredIsReached | src/net/net.cpp:86-92 | what exploring from all starting layers leaves behind is what they reach |
| Nets.Net.WalkInputs | src/net/net.cpp:86-88 | the forward list has no duplicates and holds exactly the layers reachable from the inputs without passing through an output |
| Nets.Net.WalkOutputs | src/net/net.cpp:90-92 | the backward list has no duplicates and holds exactly the ancestors of the outputs |
| Nets.Net.Merge | src/net/net.cpp:94-95 | the merged list has no duplicates and the members of both |
| Nets.Net.Assemble | src/net/net.cpp:77-115 | collects exactly the right layers; succeeds if and only if they are acyclic, and then keeps them in forward order |
| Nets.Net.MakeGraph | src/net/net_build.cpp:228-232 | both sorts succeed together, exactly on acyclic nets; the forward order of an assembled net is its layer order |
| Training.RunForward | src/net/net_func.cpp:49-55 | after running the layers in order each holds its function of what its parents hold, and other layers are untouched |
| Training.ForwardUnique | src/net/net_func.cpp:49-55 | these equations have one solution, so any topological order computes the same outputs |
| Training.AdjointSettled | src/net/net_func.cpp:57-67 | a layer's gradient is complete when its turn comes in the backward order |
| Training.SentOnce | src/net/net_func.cpp:63 | a parent linked once gets what the layer makes of its delta, from the layer's own, once |
| Training.BackwardPropagates | src/net/net_func.cpp:57-76 | every backward call is given what the loss of its layer, and then the calls before it, link by link, make of the layer's delta |
| Training.AllFedIffAllReach | src/net/net_func.cpp:57-76 | every layer is an output or feeds a layer of the net if and only if every layer leads to an output |
| Training.SentToFed | src/net/net_func.cpp:57-67 | a layer has received a delta before its turn exactly when it feeds a layer of the net |
| Training.VisitKeeps | src/net/net_func.cpp:58-66 | one round of the backward loop keeps, for every layer, the relation between its delta and its gradient, at every memory level |
| Training.Trainer.DoForward | src/net/net_func.cpp:49-55 | the trainer's outputs satisfy the forward equations |
| Training.Trainer.ResetLayer | src/layers/layer.cpp:190-199 | with full memory the delta, if there is one, and the states become zero; the detached flag is cleared at every memory level |
| Training.Trainer.DoReset | src/layers/layer.cpp:190-199 | exactly the layers of the net are reset; afterwards each of their deltas is missing or zero |
| Training.Trainer.MemDelta | src/layers/layer.cpp:129-136 | a missing delta becomes zero, an existing one is kept |
| Training.Trainer.MemDeltaParent | src/layers/layer.cpp:123-127 | exactly the parents' missing deltas become zero |
| Training.Trainer.Backward | src/net/net_func.cpp:63 | a parent linked once has its delta changed by the layer's function of both deltas, one linked repeatedly once per link in link order, and no other delta changes; never touches an unallocated delta |
| Training.Trainer.DoDelta | src/net/net_func.cpp:69-76 | output i gets the delta that loss i writes for it, or a zero delta where there is none; no other delta changes |
| Training.Trainer.FreeDelta | src/layers/core/layer_input.cpp:45-54 | the delta of a layer of class LInput is zeroed and must exist; any other is freed |
| Training.Trainer.Visit | src/net/net_func.cpp:58-66 | fails exactly when the layer has no delta and needs one; otherwise every delta is the old one plus what was sent |
| Training.Trainer.DoBackward | src/net/net_func.cpp:57-67 | succeeds exactly when every layer has a delta before its turn; each backward call is given the layer's complete gradient; afterwards deltas are freed, or complete |
| Training.Trainer.TrainStep | src/net/net_api.cpp:55-71 | exact condition for the whole step to succeed; how the delta of every backward call comes about from the losses and the calls before it; the state it leaves |
| Training.Trainer.CompleteStep | src/net/net_api.cpp:55-71 | in a net whose layers all lead to an output and have their parents in it, the step succeeds with every output and every delta as the equations say |
| Training.LowMemoryRefinesFull | src/net/net_func.cpp:57-67 | low-memory and full-memory steps succeed together, compute the same outputs and give every backward call the same delta; the one frees every delta, the other leaves them complete |
| TrainedNets.ParentsCollected | src/net/net.cpp:77-115 | in a collected net whose layers all lead to an output no layer has a parent outside the net |
| TrainedNets.BuildNet | src/net/net.cpp:77-115 | collecting and sorting: exactly the right layers, success exactly without a cycle, and then both orders |
| TrainedNets.StepNet | src/net/net_api.cpp:55-71 | a step over a sorted net succeeds exactly when every layer gets a delta or needs none, and then every backward call is given what the losses and the earlier calls propagate |
| TrainedNets.BuildAndTrain | src/net/net_api.cpp:55-71 | from the links to trained nets at both memory levels, whichever layers are of class LInput: exact conditions for building and for each step, and equal outputs and deltas when every layer leads to an output |
| TrainedNets.DanglingFails | src/net/net_func.cpp:57-67 | a net with a layer that feeds nothing is built, and its step fails at every memory level |
| Gradients.AdjointIsSum | src/net/net_func.cpp:57-67 | where layers add to their parents' deltas, what a layer has received is a sum over the links |
| Gradients.LogObeysChainRule | src/net/net_func.cpp:57-76 | every backward call is given its loss delta plus the sum over all backward calls and all their links to its layer |
| Gradients.GradientStep | src/net/net_api.cpp:55-71 | a training step calls the backward of every layer once, with the gradient by the chain rule |
| Gradients.BuildAndDifferentiate | src/net/net_api.cpp:55-71 | the same from the links of the layers on, at both memory levels |
| Unrolling.AheadOfChild | src/net/net_unroll.cpp:36-40 | a layer leads to a recurrent layer if a child does or is one |
| Unrolling.AheadByChild | src/net/net_unroll.cpp:36-40 | and only then |
| Unrolling.Arena.CheckRnnForward | src/net/net_unroll.cpp:32-43 | terminates on acyclic links and decides whether a recurrent layer lies ahead |
| Unrolling.Arena.MarkFrnn | src/net/net_unroll.cpp:71-73 | marks exactly the layers that are recurrent or lead to a recurrent layer |
| Unrolling.Arena.SortFrnnFirst | src/net/net_unroll.cpp:76-85 | the marked layers in their order, then the others in theirs |
| Unrolling.FrnnOrderIsForward | src/net/net_unroll.cpp:76-85 | moving the marked layers to the front keeps every parent before its child and loses no layer |
| Unrolling.LookupIsOwn | src/net/net_unroll.cpp:101-131 | position j of a row is the copy of the layer at position j if and only if all inputs come before that layer |
| Unrolling.TimelyIff | src/net/net_unroll.cpp:71-107 | for which nets this holds for every recurrent layer: each input precedes it and leads to a recurrent layer |
| Unrolling.LookupMisses | src/net/net_unroll.cpp:71-107 | a net for which it does not hold |
| Unrolling.OwnPastIff | src/net/net_unroll.cpp:122-127 | `nlayers[i-1][j]` is the previous copy of the layer itself, for every recurrent layer, if and only if all of them come after the inputs |
| Unrolling.PastInReach | src/net/net_unroll.cpp:101-133 | the previous row always has a position j for every recurrent layer j |
| Unrolling.SingleInputTimely | src/net/net_unroll.cpp:71-107 | with a single source it always holds |
| Unrolling.Arena.Share | src/net/net_unroll.cpp:126-127 | a copy has the given parents, is linked both ways, and remembers its original |
| Unrolling.Arena.FindOrig | src/net/net.cpp:39-48 | finds a copy of the layer if there is one |
| Unrolling.RowFinds | src/net/net_unroll.cpp:112-116 | in a row, the copy of a layer stands at the layer's own position and nowhere else |
| Unrolling.RowGrows | src/net/net_unroll.cpp:120-128 | appending the next copy keeps the row aligned and its links right |
| Unrolling.Arena.CopiesOfParents | src/net/net_unroll.cpp:113-118 | collects the row's copies of all parents, failing exactly when a parent is outside the net |
| Unrolling.Arena.PlaceLayer | src/net/net_unroll.cpp:112-131 | the row gets the layer's copy at the layer's position, linked to the row's copies of its parents and to `nlayers[i-1][j]`, whatever that is the copy of |
| Unrolling.Arena.UnrollRow | src/net/net_unroll.cpp:101-133 | a row holds copies of exactly the active layers, position by position |
| Unrolling.Arena.UnrollStep | src/net/net_unroll.cpp:101-142 | one more row, its inputs listed, and its outputs listed from the first output step on |
| Unrolling.Arena.UnrollEnc | src/net/net_unroll.cpp:51-166 | fails exactly when a layer other than an input has a parent outside the net; otherwise one row of copies per step, linked as the lookups find them |
| Unrolling.RecOrderFree | src/net/net_unroll.cpp:76-85 | the recurrence depends neither on the forward order chosen nor on what layers that take nothing from the step before would take |
| Unrolling.SameMeaningIff | src/net/net_unroll.cpp:122-127 | for all layer functions and feeds every layer has the value meant if and only if every recurrent layer takes its own past |
| RecurrentNets.CopyLinks | src/net/net_unroll.cpp:112-128 | the links of a copy: same row for parents, previous row for what a recurrent layer takes from there |
| RecurrentNets.CopyComputes | src/net/net_unroll.cpp:101-142 | the copy of a layer in row t ends up holding the recurrence's value at time t |
| RecurrentNets.CopiesFormANet | src/net/net_unroll.cpp:158 | the net built from the unrolled inputs and outputs consists of copies only and is acyclic |
| RecurrentNets.RunNet | src/net/net_unroll.cpp:158 | building, sorting and running it computes everything the outputs depend on |
| RecurrentNets.ForwardRecurrent | src/net/net_unroll.cpp:51-166 | the outputs of the unrolled net at the last steps are the values of the recurrence with the links the lookups make; these are the values of the original net's recurrence when all recurrent layers come after the inputs |
| RecurrentNets.MeaningKeptIff | src/net/net_unroll.cpp:51-166 | the two recurrences agree at every layer, for all layer functions and feeds, if and only if they do |
| RecurrentNets.LinksToAnother | src/net/net_unroll.cpp:101-142 | unrolling the net of LookupMisses for two steps links the recurrent layer's copy to the previous copy of another layer |
| RecurrentNets.ShowsAnother | src/net/net_unroll.cpp:51-166 | running it gives 1 where the original net's recurrence gives 2 |
| RecurrentNets.SomeNetUnrolls | src/net/net_unroll.cpp:51-166 | the conditions of these results are met by an input that feeds a recurrent layer |
| RecurrentNets.PrepareInputs | src/net/net_api.cpp:1243-1251 | `tinr` holds the steps of the first input, then those of the next, and so on |
| RecurrentNets.PositionsAgreeIff | src/net/net_unroll.cpp:145-152 | the position of step j of input i in `tinr` is the position the unrolled net reads, for all i and j, if and only if there is at most one input or at most one step |
| RecurrentNets.FeedOrderIff | src/net/net_api.cpp:1243-1251 | every step is fed its own inputs, for all data, under exactly that condition |
| RecurrentNets.ForwardFlat | src/net/net_api.cpp:1243-1251 | the same two results for what the flat list feeds each step, and for the inputs themselves with at most one input or one step |
| DataGenerator.StepInv | src/mpi_distributed/data_generator.cpp:1175-1239 | every step keeps: slots, tokens and semaphores add up to the buffer size, the mutex is exclusive, every claimed index is accounted for, counters and ring pointers follow |
| DataGenerator.RunInv | src/mpi_distributed/data_generator.cpp:1175-1239 | so does every run, for any number of threads |
| DataGenerator.StateInNumbers | src/mpi_distributed/data_generator.cpp:1175-1239 | semaphores, counters and pointers of every reachable state, told by how many threads stand where |
| DataGenerator.MutualExclusion | src/mpi_distributed/data_generator.cpp:1175-1239 | at most one thread, counting the consumer, is between waiting for the mutex and posting it, and the mutex is taken exactly then |
| DataGenerator.StuckMeansDone | src/mpi_distributed/data_generator.cpp:1177-1239 | a state with no possible step has served every call for which there is a batch |
| DataGenerator.StepDecreases | src/mpi_distributed/data_generator.cpp:1175-1239 | every step of every thread lowers a non-negative measure |
| DataGenerator.RunsComplete | src/mpi_distributed/data_generator.cpp:1175-1239 | every run is finite; one that cannot go on has served all calls and claimed each index exactly once |
| DataGenerator.SerialStep | src/mpi_distributed/data_generator.cpp:1175-1239 | with one thread, slot or batch, the slots between the pointers hold the loaded batches in order after every step |
| DataGenerator.SerialNeverRaces | src/mpi_distributed/data_generator.cpp:1569-1606 | then the slot being copied is never being loaded, and the k-th call has returned the k-th batch |
| DataGenerator.RefinesQueue | src/mpi_distributed/data_generator.cpp:1569-1606 | then every step does nothing to, appends to, or takes the head of a queue |
| DataGenerator.ParallelRace | src/mpi_distributed/data_generator.cpp:1177-1226 | otherwise some run copies a slot being loaded, and some run delivers a wrong batch |
| DataGenerator.OrderedIffSerial | src/mpi_distributed/data_generator.cpp:1175-1239 | all runs are free of races, and all deliver in order, if and only if there is one thread, one slot or one batch at most |
| Sharding.GenUniqueRandomList | src/mpi_distributed/data_generator.cpp:79-97 | for every random sequence the list is a permutation, the one its swaps make |
| Sharding.EveryOrderArises | src/mpi_distributed/data_generator.cpp:79-97 | every permutation is made by some random sequence |
| Sharding.PermutationIsBijection | src/mpi_distributed/data_generator.cpp:79-97 | every batch number occurs exactly once |
| Sharding.SetNbpp | src/mpi_distributed/mpi_distributed.cpp:502-531 | the batches per process for a dataset of one's own and for a shared one; fewer samples are discarded than one batch for each sharing process |
| Sharding.EachBatchReadOnce | src/mpi_distributed/data_generator.cpp:1208-1217 | over all processes, each batch of a shared dataset is read by exactly one claim |
| Sharding.AllBatchesDelivered | src/mpi_distributed/data_generator.cpp:1496-1512 | the same for generators run to their end under any interleaving of their threads |
| Sharding.RangeInFile | src/mpi_distributed/data_generator.cpp:931 | the byte range of every batch of every process lies behind the header and inside the file |
| Sharding.SampleOffset | src/mpi_distributed/data_generator.cpp:931 | sample s of batch p is sample p * localBatch + s of the file |
| Sharding.ByteOfBatch | src/mpi_distributed/data_generator.cpp:931 | a byte belongs to exactly the batch its place behind the header says, and a header byte to none |
| Sharding.RangesCover | src/mpi_distributed/data_generator.cpp:931 | any number of batches are together the first bytes of the data, without a gap |
| Sharding.RangesDisjoint | src/mpi_distributed/data_generator.cpp:931 | the byte ranges of different batches do not overlap |
| Addresses.CoordIsDigit | include/eddl/utils.h:97-101 | dividing by the stride and reducing by the extent gives the coordinate |
| Addresses.DotIsAddress | include/eddl/utils.h:89-95 | the sum of coordinate times stride is the row-major address |
| Addresses.AddressOfCoords | include/eddl/utils.h:89-101 | coordinates lead back to their address |
| Addresses.CoordsOfAddress | include/eddl/utils.h:89-101 | an address in the box leads back to its coordinates |
| Tables.Shape2Size | src/utils.cpp:335-341 | the product of the extents |
| Tables.Shape2Stride | src/utils.cpp:343-353 | each stride is the size of the axes behind |
| Tables.TensorShape.UpdateStrides | src/tensor/tensor.cpp:122-130 | the divided strides equal the multiplied ones |
| Tables.FastIndices2Address | include/eddl/utils.h:89-95 | computes the row-major address |
| Tables.FastAddress2Indices | include/eddl/utils.h:97-101 | computes the coordinates |
| Tables.SetSelect | src/hardware/cpu/cpu_core.cpp:309-316 | reading back through a table without duplicates gives what was written, and no other cell changes |
| Tables.SizeOfRearranged | src/utils.cpp:372-377 | rearranging the extents keeps the size, so a permutation is never rejected |
| Tables.MovedAddress | src/utils.cpp:389-394 | the inner loop computes the address of the rearranged coordinates |
| Tables.PermuteIndices | src/utils.cpp:368-402 | fails exactly on a wrong number of axes or a changed size; otherwise every cell that an address is moved to holds the last such address, and for a permutation of the axes every address is entered at its own place |
| Tables.LastIsOnly | src/utils.cpp:386-398 | for a permutation of the axes no two addresses are moved to one cell |
| Tables.PermuteTableIsBijection | src/utils.cpp:386-398 | the table is a bijection on the addresses |
| Tables.PermuteRoundTrip | src/utils.cpp:368-402 | permuting by the axes and then by their inverse restores the data |
| Tables.MoveAxisDims | src/tensor/tensor_core.cpp:96-113 | which axis list is built, for negative axes too |
| Tables.MoveAxisInverse | src/tensor/tensor_core.cpp:106-113 | moving an axis and moving it back are inverse axis lists |
| Tables.MoveAxisRoundTrip | src/tensor/tensor_core.cpp:96-118 | moving an axis and moving it back restores shape and data |
| Tables.ParseRange | src/utils.cpp:283-322 | accepts an entry exactly when its interval is not empty and lies inside the axis, and returns its first and last index |
| Tables.EntryInNumbers | src/utils.cpp:283-322 | the interval of each kind of entry, negative bounds included: accepted exactly when not empty and inside the axis, and exactly its indices chosen |
| Tables.PlainEntries | src/utils.cpp:283-322 | the same for bounds that are not negative |
| Tables.RangeIsHalfOpen | src/utils.cpp:300-307 | a range selects its half-open interval if and only if its stop is not 0 |
| Tables.StopZero | src/utils.cpp:300-307 | the entry ":0" is accepted on every axis and selects all of it, not the empty interval |
| Tables.ParseIndices | src/utils.cpp:256-325 | pads missing entries, and fails exactly on too many or unacceptable entries |
| Tables.ShapeInNumbers | src/utils.cpp:256-325 | the entries are accepted exactly when there are not too many and every interval is good; the selection has the intervals' lengths |
| Tables.ChosenInNumbers | src/utils.cpp:404-436 | an address is chosen exactly when each coordinate lies in the interval of its axis's entry |
| Tables.RangePosition | src/utils.cpp:421-429 | the inner loop computes the shifted address |
| Tables.Ranges2Indices | src/utils.cpp:404-436 | cell i of the table is the address of the i-th selected cell |
| Tables.RangeIncreasing | src/utils.cpp:418-433 | the table is strictly increasing |
| Tables.RangeSelectsBox | src/utils.cpp:418-433 | an address is listed if and only if every coordinate lies in its range |
| Tables.RangeTableWritable | src/utils.cpp:404-436 | the table has no duplicates and stays in bounds |
| Tables.SelectionTable | src/utils.cpp:256-436 | from the entries to the table: increasing, and holding exactly the addresses whose coordinates lie in the entries' intervals |
| Tables.ListedIffChosen | src/utils.cpp:404-436 | an address is in the table if and only if its coordinate is chosen on every axis |
| Tables.SetSelection | src/tensor/tensor_core.cpp:769-784 | fails exactly on unacceptable entries or data of another shape; otherwise the data goes to the chosen cells and nowhere else |
| Tables.GetSelection | src/tensor/tensor_core.cpp:712-725 | reads the chosen cells, in the order of the table |
| Tables.WriteThenRead | src/tensor/tensor_core.cpp:712-784 | writing through an accepted index list and reading back returns what was written; no other cell changes |
| Tiling.CartesianProduct | src/utils.cpp:691-707 | the loops build the product |
| Tiling.InProduct | src/utils.cpp:691-707 | a tuple is in the product exactly when each component is in its list |
| Tiling.ProductDistinct | src/utils.cpp:691-707 | lists without duplicates give each tuple once |
| Tiling.AxisCopiesAre | src/descriptors/descriptor_tile.cpp:69-76 | the coordinates listed for an axis are those congruent to the input coordinate |
| Tiling.TileTuplesAre | src/descriptors/descriptor_tile.cpp:68-78 | the tuples listed for an input cell are the output coordinates that show it |
| Tiling.TileDescriptor.Build | src/descriptors/descriptor_tile.cpp:25-85 | cell b holds the address of b's coordinates modulo the input extents, and every cell is written exactly once |
| Tiling.SegmentUnique | src/descriptors/descriptor_repeat.cpp:76-83 | each output coordinate is covered by the copies of one index only |
| Tiling.RepeatEvenly | src/descriptors/descriptor_repeat.cpp:76-83 | when every index is repeated r times, output coordinate x shows index x / r |
| Tiling.CopyAlongAxis | src/descriptors/descriptor_repeat.cpp:86-88 | the copies of a cell lie one stride apart |
| Tiling.RepeatDescriptor.Build | src/descriptors/descriptor_repeat.cpp:22-94 | cell b holds the address whose coordinate on the axis is the index whose copies cover b's, and every cell is written exactly once |
| Reductions.SizeSplits | src/descriptors/descriptor_reduce.cpp:80-81 | the size is the kept size times the reduced size |
| Reductions.ProjectAgrees | src/descriptors/descriptor_reduce.cpp:41-76 | addresses have the same reduced address exactly when all kept coordinates agree |
| Reductions.ProjectMono | src/descriptors/descriptor_reduce.cpp:61 | the first members of the groups are sorted as their reduced addresses are |
| Reductions.GrowAxis | src/descriptors/descriptor_reduce.cpp:52-57 | growing the list along an axis gives each address that agrees with a listed one off that axis, once |
| Reductions.GrowAll | src/descriptors/descriptor_reduce.cpp:47-59 | the grown list holds each address that differs from the first only along the chosen axes, once |
| Reductions.BasesInOrder | src/descriptors/descriptor_reduce.cpp:47-61 | after sorting, the i-th entry is the first member of the group with reduced address i |
| Reductions.Groups | src/descriptors/descriptor_reduce.cpp:41-86 | group i is exactly the set of addresses whose kept coordinates have row-major address i, each once, and all groups have the same size |
| Reductions.ReduceDescriptor.Build | src/descriptors/descriptor_reduce.cpp:88-112 | fails exactly on too many axes or an axis out of range |
| Reductions.WriteGroups | src/descriptors/descriptor_reduce.cpp:130-137 | the parallel loop writes every cell once, each with the reduced address of its index |
| Reductions.ReduceDescriptor.BuildForward | src/descriptors/descriptor_reduce.cpp:123-137 | the forward table |
| Reductions.ReduceDescriptor.BuildReverse | src/descriptors/descriptor_reduce.cpp:138-145 | the reverse table lists the groups one after the other |
| Reductions.ForwardOfReverse | src/descriptors/descriptor_reduce.cpp:123-145 | forward of reverse at k is k divided by the group size, and the reverse table lists every address once |
| Reductions.ReduceDescriptor.SizeReductionIs | src/descriptors/descriptor_reduce.cpp:25-39 | `size_reduction` is the group size, or 1 with `keepdims` |
| Reductions.ReduceDescriptor.SizeReductionDivides | src/descriptors/descriptor_reduce.cpp:123-145 | dividing by `size_reduction` works if and only if dimensions are not kept or every group is a single cell |
| Reductions.GetReductionMap | src/tensor/tensor_reduction.cpp:24-80 | the same forward table, from the tensor's own strides |
| Reductions.BothMaps | src/tensor/tensor_reduction.cpp:24-80 | the two implementations give the same table for every shape and every accepted axis list |
| DeviceNets.SlicesPartition | src/net/net_build.cpp:426-446 | the slices are non-empty, adjoin each other and cover the batch |
| DeviceNets.SplitLayer.Resize | src/net/net_build.cpp:414-461 | every device that gets a slice has room for exactly its slice, also when there are fewer samples than devices |
| DeviceNets.SplitLayer.Distribute | src/net/net_func.cpp:195-249 | each device receives its slice; fails exactly when the batch is smaller than the number of devices |
| DeviceNets.SplitLayer.Collect | src/net/net_func.cpp:130-193 | the slices are put together to the whole batch; a one-dimensional output over several devices is taken from device 0 |
| DeviceNets.DistributeThenCollect | src/net/net_func.cpp:130-249 | collecting after distributing is the identity, for outputs of every rank |
| DeviceNets.TrainBatchSlices | src/net/net_api.cpp:1402-1430 | the devices receive the slices of the chosen samples |
| DeviceNets.SlicesOfMap | src/net/net_func.cpp:130-193 | a layer that works sample by sample commutes with slicing |
| DeviceNets.ForwardOnDevices | src/net/net_api.cpp:1392-1450 | the collected output of all devices is the output of the whole batch on one, but for a one-dimensional output over several devices, which holds the first slice |
| DistributedFit.NextPeriodIsPolicy | src/mpi_distributed/mpi_distributed.cpp:816-907 | each policy in numbers: when it doubles, shrinks or clamps the period, by the quotient of the two epoch times, and what it does to the reference time |
| DistributedFit.PolicyDecides | src/mpi_distributed/mpi_distributed.cpp:816-907 | these numbers leave no choice |
| DistributedFit.PeriodSteps | src/net/net_api.cpp:1014-1029 | in every step of every run process 0 changes its period only as the policy says, and the others take it at the broadcast |
| DistributedFit.NextPeriodBounds | src/mpi_distributed/mpi_distributed.cpp:816-876 | each policy keeps the period positive and within its bounds |
| DistributedFit.SpeedUpCompared | src/mpi_distributed/mpi_distributed.cpp:849-857 | the comparisons of the speed-up can be made on products instead of the quotient |
| DistributedFit.LocalKeepsNext | src/net/net_api.cpp:962-1000 | training and updating never change which collective a process calls next |
| DistributedFit.WaitingTogether | src/net/net_api.cpp:879-1029 | processes that are all in a collective are in the same one, of the same batch and epoch |
| DistributedFit.StepInv | src/net/net_api.cpp:879-1029 | every local and every collective step keeps the processes aligned and the settled weights equal |
| DistributedFit.SameCollectives | src/net/net_api.cpp:879-1029 | all processes have called the same sequence of collectives in every reachable state |
| DistributedFit.SyncAgrees | src/mpi_distributed/mpi_distributed.cpp:731-759 | all weights are equal on all processes after every synchronisation |
| DistributedFit.EpochEndAgrees | src/net/net_api.cpp:879-1029 | all weights are equal on all processes at the end of every epoch and when they are done |
| DistributedFit.SyncCountIs | src/mpi_distributed/mpi_distributed.cpp:739 | how many of the first j batches are followed by averaging |
| DistributedFit.SyncsPerEpoch | src/mpi_distributed/mpi_distributed.cpp:806-814 | an epoch averages as often as its batches divided by the period, rounded up; never with one process |
| DistributedFit.NeverStuck | src/net/net_api.cpp:879-1029 | unless all processes are done, some step is possible |
| DistributedFit.PeriodBounded | src/mpi_distributed/mpi_distributed.cpp:816-876 | without the overhead policy, the period stays between the configured one and the batches of an epoch in every run if and only if it starts there |
| DistributedFit.PeriodExact | src/net/net_api.cpp:879-1029 | under a policy that ignores times, every process trains every epoch with that epoch's period, in every run |
| DistributedFit.GrowingPeriod | src/mpi_distributed/mpi_distributed.cpp:816-837 | closed form: the growing policies double the period every `x_avg` epochs up to the batches of an epoch, and keep it with one process |
| DistributedFit.ShrinkingPeriod | src/mpi_distributed/mpi_distributed.cpp:816-844 | closed form: the shrinking policy halves it every `x_avg` epochs down to the configured one, and keeps it with one process |
| FitRuns.StepDecreases | src/net/net_api.cpp:879-1029 | every step of the processes lowers what remains to be done |
| FitRuns.RunsEnd | src/net/net_api.cpp:879-1029 | every run is bounded, for every policy and interleaving, and can be continued exactly until all processes are done |
| FitRuns.CollectivesExact | src/net/net_api.cpp:879-1029 | under a policy that ignores times, the list of collectives a process that is done has called begins with two barriers and the broadcasts of the parameters in order; it is empty for a process that is alone |
| FitRuns.EpochCalls | src/net/net_api.cpp:957-1029 | what follows in every epoch, call by call: for each averaging the reductions of the parameters in order, then the metrics in order, then the broadcast of the period |
| FitRuns.RootWeights | src/net/net_api.cpp:952 | in every run the first batch is trained from the initial weights of process 0, parameter by parameter as they are broadcast |
| FitRuns.AveragingsAre | src/mpi_distributed/mpi_distributed.cpp:806-814 | an epoch averages as often as its batches divided by the period, rounded up; never with one process |
| FitRuns.FixedCollectives | src/net/net_api.cpp:879-1029 | closed form of their number for a fixed period |
| FitRuns.OneProcess | src/mpi_distributed/mpi_distributed.cpp:109-115 | under every policy a single process calls no collective, averages nothing and keeps its period, in every reachable state |
| DistributedFit.AveragingConserves | src/mpi_distributed/mpi_distributed.cpp:748-753 | averaging keeps the sum over the processes of every element of a parameter |
| DistributedFit.AverageOfTwo | src/mpi_distributed/mpi_distributed.cpp:748-753 | two processes get half their sum |
| DistributedFit.AveragingIsIdempotent | src/mpi_distributed/mpi_distributed.cpp:748-753 | averaging equal parameters changes nothing |
| DistributedFit.SyncSizesCount | src/mpi_distributed/mpi_distributed.cpp:741-748 | one size is listed for every parameter of a trainable layer that is not empty |
| DistributedFit.AvgCpuWeights | src/mpi_distributed/mpi_distributed.cpp:731-759 | one reduction for each such parameter, in order, when the batch is a multiple of the period or the last; otherwise none |
| DistributedFit.AvgWeights | src/mpi_distributed/mpi_distributed.cpp:806-814 | the same calls, or none with one process |
| DistributedFit.SyncFollowsLoop | src/mpi_distributed/mpi_distributed.cpp:731-759 | the state machine's synchronisation makes exactly these calls, when they are due and there are several processes |
| DistributedFit.Averager.Adapt | src/mpi_distributed/mpi_distributed.cpp:846-866 | AUTO_TIME doubles the period up to the batches of an epoch when the quotient is above 1.10 or below 0.97, and otherwise takes a quarter off down to the configured one; the reference time becomes the new one below 0.97 and else the smaller |
| DistributedFit.Averager.UpdateBatchAvg | src/mpi_distributed/mpi_distributed.cpp:816-872 | only process 0 of several changes its period and reference time, only at a turn, and then as the policy says in numbers |
| DistributedFit.Averager.LimitTo | src/mpi_distributed/mpi_distributed.cpp:882-907 | process 0 takes the wanted period, clamped to at least 1 and at most the batches of an epoch |

## Left out

- Numeric kernels, optimizers, losses, metrics, initializers, regularizers and data augmentation: elementwise formulas, functions of `Training.Kernel` here.
- GPU, FPGA and NCCL variants (on the CPU alone `collectTensor` and `distributeTensor` do nothing), including the FPGA graph conversion in `src/apis/fpga.cpp` and its layer associations.
- The window arithmetic of convolution and pooling descriptors, and the tensor stream format of `src/tensor/tensor_serialization.cpp`: smaller results than those above.
- `unroll_dec`, `unroll_enc_dec` and decoders: their positional lookups need assumptions on the net that the code does not check.
- A layer of class LInput that a recurrent net does not list among its inputs: when it is unrolled it counts as a layer without parents, which computes a constant.
- The reuse test in `build_rnet`, copying weights between the net and its unrolled net, and the backward pass through the unrolled net.
- Training.Trainer.Backward: layers that share their parent's delta (reshape, dropout and the like) are not modelled, since a delta is a value here.
- What writes the states of recurrent cells: the reset zeroes them, and nothing else here touches them.
- Training.Trainer.MemDelta: does not model the resize of a delta to a changed batch size, since deltas have no size here.
- The `net` pointer of a layer, reference counts and names.
- Input tensors with an axis of extent zero.
- Tables.ParseRange: the text of an entry is not scanned; it is given as numbers.
- `swapaxis`, which is `permute` with another axis list, and gather, expand and pad descriptors.
- Cancelling threads in `stop_DataGen`, file reading, and the contents of batches: a slot holds the index its batch was loaded for. Sampling with `DG_RANDOM` promises nothing about coverage.
- MPI itself: a collective completes when every process has called one; when the calls differ nothing is assumed of the data.
- The policy that limits the overhead rounds a quotient of measured times; the model takes any integer in its place.
- Weight averaging over the devices of one process (`sync_weights`), and the numbers of collectives under the policies that look at measured times.
