# DeepSpeed: verified models of its indirect computations

This project models five groups of DeepSpeed code in Dafny and proves what they compute. In each of them a short
specification is obtained in a roundabout way: through ring buffers, nested maps, cascaded loops, asynchronous copies
or greedy allocation.

- **Block segmentation** (`BlockSegmentation`). `sdd_segment` numbers the nonzero blocks of a sparse-attention layout
  and carves them into square groups with a table of widths and two ring buffers, erasing the layout it scans. For every
  start width the result is a segmentation: segments in falling order of the widths, each a list of square grids of
  rows and columns, with the numbers of their blocks. No pass overlooks a compact grid of its width, that is, a square
  grid of blocks in a rectangle that, beyond its first row and column, holds no other block, and a pass of width 2
  takes nothing but compact grids. No block is lost. For start widths 1 and 2 every block is returned exactly once.
- **Checkpoint reshape** (`Meg2dReshape`, `Reshape3d`, `StateMerge`, `ZeroCheckpoint`, `ReshapeConservation`,
  `ProcessGroups`). A pipeline x tensor x data grid of checkpoint shards is contracted to a smaller grid. The index maps
  have a closed form and list every shard once; the merged states hold, tensor by tensor, exactly the unpadded data of
  the source shards in order.
- **Experiment scheduler and launcher** (`Scheduler`, `Sorting`, `Text`, `ResourceFilter`, `LaunchString`). The
  autotuner's slot allocator and run loop conserve slots in every state, start experiments in queue order and end with
  everything finished and idle; the include string a launch prints is parsed by the launcher into exactly the slots that
  were reserved; including and excluding a specification share out every host's slots, under the condition that is
  needed for it.
- **Numeric kernels** (`AdamRule`, `DoubleBuffer`, `CpuAdam`, `BufferUse`, `BlockReduce`, `LinearAlgebra`,
  `TensorParallel`, `Pruning`, `HeadPruning`, `CompressedLinear`). Vectorised, tiled, asynchronous, parallel or pruned
  forms are proved equal to the plain ones over the real numbers, and the lengths for which the Adam step keeps its two
  pinned buffers apart are determined exactly.
- **Elastic batch sizing** (`Elastic`). Candidate batches, GPU counts and the selection among them; every advertised
  GPU count decomposes the batch, and lies in the limits under an exact condition.

`Arithmetic`, `Sequences` and `Wrappers` hold shared lemmas and result types.

## How the source is represented

- Numbers are unbounded integers and, in the kernels, reals; square root and division are function parameters about
  which nothing is assumed, activation functions and the per-head attention function are arbitrary functions.
- Dictionaries keyed by the string "i,j" are maps keyed by pairs. `zero_checkpoint.py` changes loaded dictionaries in
  place; `ZeroCheckpoint` returns the changed dictionary. Tensors in a checkpoint are flat lists.
- Failing assertions and raised errors are result values (`None`, `Error`, `Bad`). The exceptions, where a precondition
  takes their place, are listed under "Left out": the form of a loaded checkpoint shard, and intermediate maps that are
  the result of the previous step. Indices and sizes are natural numbers.
- A running experiment carries the number of checks its thread still survives. As this number is arbitrary, every
  pattern of jobs finishing is covered. The dictionary of running experiments is a list in insertion order.
- A copy to the device is a set of elements still to be copied; `Background` lets any pending copies make any progress
  and is called before every write to a pinned buffer. An address inside a tensor is the tensor and an offset. A group of
  vector registers is the list of its lanes. The tile loop, which `Step_1` and `Step_AVX` each spell out, is one
  method here with either inner loop; the parallel inner loops run in order.
- `reduce_block_into_lanes` runs for an arbitrary interleaving of the threads' reads and writes between two barriers.
- Linear layers act on one input row; a batch is many rows.
- `scratch` is a bounded array. A write beyond it is skipped in the model, and claims about the returned rows hold as
  long as in no pass a head outgrows its part of it, which is proved for start widths 1 and 2.

## Where the code differs from what one might expect

- `get_mpu_ranks` describes pipeline-parallel groups, but returns as `all_pp_group_ranks` the model-parallel groups;
  the model follows the code, and the partition and intersection theorems are about those.
- `merge_state_dict` walks the second dictionary only: a tensor under a key of the first alone is lost
  (`StateMerge.KeyLost`). Merging concatenates tensor by tensor exactly when every nonempty tensor of the first state
  has a tensor at its path in the second (`StateMerge.MergeIsConcatenation`); the same key tree on both sides is
  sufficient.
- `ZeROCheckpoint.reshape` records the new target before it knows that the reshape succeeds, so the recorded target is
  the mapped one exactly when the reshape succeeds (`ZeroCheckpoint.Checkpoint.Reshape`). After a refused reshape from
  data-parallel size 2 to 3, states carry the partition count 3 (`ZeroCheckpoint.RefusedReshape`).
- A request for zero GPUs is never granted unless it also asks for zero nodes, because an empty slot list counts as a
  refusal; a request for zero nodes yields an empty reservation list, which the run loop treats as a refusal too. The
  run loop never gets past such a request, nor past one that too few nodes could ever meet
  (`Scheduler.ResourceManager.Turns`); it ends when every queued request is grantable
  (`Scheduler.ResourceManager.Run`).
- With a device array, only the loops' third and later tiles wait for the copy from the buffer they write, and every
  loop starts counting anew. Starting idle, a step never writes a buffer whose copy may be pending exactly when it runs
  at most one nonempty loop, or two of which the first has at most one tile (`BufferUse.StepIsSafe`). With 16 lanes, 208
  parameters run loops of 128, 64 and 16 (`BufferUse.ThreeLoops`), and if no copy has made progress by the third loop,
  element 0 of the device array becomes parameter 192 (`BufferUse.WrongDelivery`).
- `_get_compatible_gpus_v02` divides the GPU limits by the GPUs per node and rounds down, and a limit of zero nodes is
  replaced by its default. With 8 GPUs a node, limits of 1 to 4 and of 12 to 16 both advertise 8 and 16
  (`Elastic.LimitsLeft`). The upper limit is kept exactly when it allows one node; the lower one exactly when it is at
  most one node, is a whole number of nodes, or its rounded-down node count is not advertised (`Elastic.LimitsKept`).
- Including a host twice keeps the later slots only, whereas excluding it twice removes both; a slot listed twice is
  accepted for inclusion and rejected for exclusion (`LaunchString.NamedTwice`, `ResourceFilter.Complementary`).
- An empty include string selects every host, so printing an empty reservation list would not round-trip; the run loop
  never starts an experiment with one.
- `fix_head_pruning_helper` with dimension reduction does not adjust the recorded number of input features.
- The batch candidates are at most, not below, the maximum, and a base that is not below the maximum is kept as it is.

## Model

| member | source | states |
|---|---|---|
| BlockSegmentation.SddSegment | csrc/sparse_attention/utils.cpp:90-115 | every start width: every nonzero block is emitted and the layout ends zero; whenever in each pass each head's emissions fit its part of scratch, the returned cells are the emissions in order and form a segmentation: nonempty segments of widths among start, start/2, ..., 1 in falling order, each a list of w x w products of rows and columns whose last row and last column are blocks no wider segment took, with no other such block between the last two rows and columns, up to width 2 compact grids of such blocks, each block once; every row with its block's row-major number (0 where there is no block), and for every such w every compact grid of at least w rows, of the blocks no wider segment took, has a cell in the segment of width w; start widths 1 and 2: the emissions fit, and the returned rows are a permutation of the numbered nonzero blocks |
| BlockSegmentation.SegmentBlocks | csrc/sparse_attention/utils.cpp:14-88 | one pass of width w erases exactly the cells it emits and, when each head's emissions fit its part of scratch, appends them, labelled, as one segment; the emissions are w x w products, and every compact grid of at least w rows has lost a cell; width 1 empties the layout |
| BlockSegmentation.SegmentHeads | csrc/sparse_attention/utils.cpp:31-83 | the emissions of all heads, kept apart per head, and their counts; every compact grid of at least the pass width has lost a cell |
| BlockSegmentation.SegmentHead | csrc/sparse_attention/utils.cpp:34-83 | one head: the emissions are w x w products, up to width 2 nonzero and distinct; every compact grid of at least w rows has lost a cell; other heads are untouched |
| BlockSegmentation.SegmentRow | csrc/sparse_attention/utils.cpp:41-80 | the column loop keeps the ring buffers, the widths and the record of compact grids consistent from row to row |
| BlockSegmentation.Visit | csrc/sparse_attention/utils.cpp:42-80 | one nonzero position: emits nothing or a grid that ends here, and keeps all invariants |
| BlockSegmentation.Measure | csrc/sparse_attention/utils.cpp:44-64 | the width is recorded and the position pushed; with the full width the ring buffers hold a grid of ascending rows and columns |
| BlockSegmentation.GroupWidth | csrc/sparse_attention/utils.cpp:44-54 | one more than the least neighbouring width, unless a column in between was seen in a later row |
| BlockSegmentation.Record | csrc/sparse_attention/utils.cpp:44-55 | the width is recorded; widths stay positive only on nonzero visited cells |
| BlockSegmentation.WidthMeaning | csrc/sparse_attention/utils.cpp:44-55 | no compact grid that ends here and has lost no cell is larger than the width; with a width above 1 the position is alone beyond its neighbours |
| BlockSegmentation.Push | csrc/sparse_attention/utils.cpp:57-63 | both ring buffers drop their oldest entry and take the position |
| BlockSegmentation.ShiftLeft | csrc/sparse_attention/utils.cpp:58-59 | the left ring buffer shifts by one |
| BlockSegmentation.ShiftTop | csrc/sparse_attention/utils.cpp:62-63 | the ring buffer of one column shifts by one, the others stay |
| BlockSegmentation.Retain | csrc/sparse_attention/utils.cpp:65-80 | erasing a group from layout and table keeps the widths consistent |
| BlockSegmentation.Carve | csrc/sparse_attention/utils.cpp:69-80 | exactly the product of the two ring buffers is erased and stored |
| BlockSegmentation.Emit | csrc/sparse_attention/utils.cpp:73-79 | one cell is erased and, inside scratch, stored with its number |
| BlockSegmentation.ReadScratch | csrc/sparse_attention/utils.cpp:84-87 | the stored rows of a head, clipped to the buffer |
| BlockSegmentation.CollectRows | csrc/sparse_attention/utils.cpp:84-87 | when each head's emissions fit its part of scratch, the rows of all heads in head order are the labelled emissions |
| BlockSegmentation.NumberBlocks | csrc/sparse_attention/utils.cpp:95-107 | the k-th nonzero cell in row-major order carries number k, every other cell 0 |
| BlockSegmentation.SumLayout | csrc/sparse_attention/utils.cpp:110 | the entry sum that sizes scratch |
| BlockSegmentation.SumBound | csrc/sparse_attention/utils.cpp:110 | the entry sum is at least the number of nonzero cells, and equal to it exactly when no entry exceeds 1 |
| BlockSegmentation.NonzeroUpToSpec | csrc/sparse_attention/utils.cpp:102-107 | the listed cells are exactly the nonzero ones, in order |
| BlockSegmentation.NoMoreThan | csrc/sparse_attention/utils.cpp:73-110 | distinct emissions are no more than the nonzero cells |
| BlockSegmentation.LabelledIsNumbered | csrc/sparse_attention/utils.cpp:95-115 | emitting every cell once is a permutation of the numbering |
| BlockSegmentation.CompactIsLatest | csrc/sparse_attention/utils.cpp:44-54 | where a compact grid ends the newest ring entries are its last row and column but one, and no column in between blocks it |
| BlockSegmentation.LatestAlone | csrc/sparse_attention/utils.cpp:51-54 | between the newest ring entries and the position there is no block, unless a column in between was seen in a later row |
| BlockSegmentation.GridHasWidth | csrc/sparse_attention/utils.cpp:44-55 | the three parts of a whole compact grid that end next to its last cell have their size as width |
| BlockSegmentation.GroupReady | csrc/sparse_attention/utils.cpp:66-80 | the grid to be carved lies in the layout, was visited and, up to width 2, is nonzero |
| BlockSegmentation.EmissionsExtend | csrc/sparse_attention/utils.cpp:66-80 | emissions stay a list of grids and, up to width 2, distinct |
| BlockSegmentation.ChainedGrows | csrc/sparse_attention/utils.cpp:56-63 | a width t means that the last t ring entries are ascending blocks of this row, and of this column |
| BlockSegmentation.RecordGrown | csrc/sparse_attention/utils.cpp:44-55 | every compact grid that ends at a visited position and has lost no cell has its size as width |
| BlockSegmentation.CarveGrown | csrc/sparse_attention/utils.cpp:69-80 | erasing a group keeps that: grids whose width it resets have lost a cell |
| BlockSegmentation.CarvedAt | csrc/sparse_attention/utils.cpp:69-80 | a carved grid has |rows| * |columns| cells; entry (a, b) is row a at column b |
| BlockSegmentation.PassExtends | csrc/sparse_attention/utils.cpp:112-113 | one more pass, over the blocks that remain, extends the segmentation to the next width |
| BlockSegmentation.NoneBetween | csrc/sparse_attention/utils.cpp:112 | between a pass width and half of it no pass runs |
| Meg2dReshape.PartitionData | deepspeed/checkpoint/reshape_utils.py:35-44 | fails exactly when the list is empty or not divisible; the parts in order make up the list |
| Meg2dReshape.Meg2dMap.SimpleInit | deepspeed/checkpoint/reshape_meg_2d.py:10-15 | cell (i, j) holds rank i*tp + j |
| Meg2dReshape.Meg2dMap.AddData | deepspeed/checkpoint/reshape_meg_2d.py:17-24 | appends to one cell, creating it when missing; the rest stays; fails exactly outside the grid, changing nothing |
| Meg2dReshape.Meg2dMap.GetData | deepspeed/checkpoint/reshape_meg_2d.py:26-36 | joins the cells of one or all rows and one or all columns; fails exactly when an index is outside the grid or a cell is missing |
| Meg2dReshape.ReshapeTpDimension | deepspeed/checkpoint/reshape_meg_2d.py:51-60 | on a freshly initialised map: succeeds exactly for a divisor, with every cell in closed form |
| Meg2dReshape.ReshapePpDimension | deepspeed/checkpoint/reshape_meg_2d.py:63-72 | on the result of the tensor step: succeeds exactly when the column divides, with every cell in closed form |
| Meg2dReshape.ReshapeMeg2dParallel | deepspeed/checkpoint/reshape_meg_2d.py:75-103 | succeeds exactly for acceptable contractions; entry k of cell (i, j) is (q/b)*oldTp + j*b + q%b with q = i*s + k, also when newPp does not divide oldPp |
| Meg2dReshape.PlaceToRank | deepspeed/checkpoint/reshape_meg_2d.py:75-103 | every place holds an old rank, and no rank occurs twice |
| Meg2dReshape.RankToPlace | deepspeed/checkpoint/reshape_meg_2d.py:75-103 | every old rank has a place |
| Meg2dReshape.CellIncreases | deepspeed/checkpoint/reshape_meg_2d.py:75-103 | ranks increase strictly within a cell |
| Reshape3d.CanReshape | deepspeed/checkpoint/reshape_3d_utils.py:51-68 | exactly the dimensions that would expand are reported |
| Reshape3d.FlattenDpDimension | deepspeed/checkpoint/reshape_3d_utils.py:80-88 | for nonempty cells: each cell lists, rank by rank, the replicas rank + y*size |
| Reshape3d.UnflattenDpDimension | deepspeed/checkpoint/reshape_3d_utils.py:91-105 | for cells of equal length: fails exactly when the length is not divisible; each cell is dealt out in equal consecutive parts |
| Reshape3d.Reshape | deepspeed/checkpoint/reshape_3d_utils.py:18-32 | succeeds exactly for reshapable targets, with every cell of every new map in closed form and of equal size |
| Reshape3d.PlaceToShard | deepspeed/checkpoint/reshape_3d_utils.py:18-32 | every place holds an old shard, and no shard occurs twice |
| Reshape3d.ShardToPlace | deepspeed/checkpoint/reshape_3d_utils.py:18-32 | every old shard has a place |
| Reshape3d.IdentityReshape | deepspeed/checkpoint/reshape_3d_utils.py:18-32 | a reshape to the same layout puts shard d*pp*tp + p*tp + t alone in cell (d, p, t) |
| Reshape3d.SelfReshapable | deepspeed/checkpoint/reshape_3d_utils.py:18-32 | a layout can be reshaped to itself |
| StateMerge.MergeState | deepspeed/checkpoint/reshape_utils.py:73-87 | succeeds exactly on mergeable states, with the merged state |
| StateMerge.MergeStateDict | deepspeed/checkpoint/reshape_utils.py:51-60 | merges the dictionaries key by key of the second one |
| StateMerge.MergeStateList | deepspeed/checkpoint/reshape_utils.py:63-70 | merges position by position |
| StateMerge.MergeLeaf | deepspeed/checkpoint/reshape_utils.py:51-87 | what happens to the tensor at every path, including paths one side lacks |
| StateMerge.MergeValue | deepspeed/checkpoint/reshape_utils.py:51-87 | where both states hold a value that is no tensor, dictionary or sequence, the first one's is kept; where the first has nothing, the second's; where the second has nothing, none |
| StateMerge.MergeShape | deepspeed/checkpoint/reshape_utils.py:51-87 | the merged state has the types, keys and lengths of the second one |
| StateMerge.SameTreeMerges | deepspeed/checkpoint/reshape_utils.py:51-87 | states with the same key tree merge, and the tree is kept |
| StateMerge.SameTreeLeaf | deepspeed/checkpoint/reshape_utils.py:51-87 | the same key tree means tensors at the same paths |
| StateMerge.MergeConcatenates | deepspeed/checkpoint/reshape_utils.py:51-87 | with the same key tree on both sides, merging concatenates every tensor |
| StateMerge.ConcatenatedAt | deepspeed/checkpoint/reshape_utils.py:51-87 | at a path, merging concatenates exactly when it does not drop a nonempty tensor of the first state |
| StateMerge.MergeIsConcatenation | deepspeed/checkpoint/reshape_utils.py:51-87 | merging concatenates at every path exactly when every nonempty tensor of the first state has a tensor at its path in the second |
| StateMerge.KeyLost | deepspeed/checkpoint/reshape_utils.py:51-60 | a tensor under a key of the first dictionary alone is lost |
| ZeroCheckpoint.StripTensorPaddings | deepspeed/checkpoint/zero_checkpoint.py:90-108 | computes the stripped state of a well-formed shard |
| ZeroCheckpoint.StripGroups | deepspeed/checkpoint/zero_checkpoint.py:99-108 | strips group by group, skipping padding 0, where every group has a fitting padding entry |
| ZeroCheckpoint.StrippedKeeps | deepspeed/checkpoint/zero_checkpoint.py:90-108 | every tensor loses exactly its group's padding, every other value and the key tree stay |
| ZeroCheckpoint.OverwrittenKeeps | deepspeed/checkpoint/zero_checkpoint.py:110-139 | adjusting a bookkeeping list touches no tensor and no value outside the list |
| ZeroCheckpoint.OverwriteStep | deepspeed/checkpoint/zero_checkpoint.py:110-139 | adjusting one list leaves the other one as it was |
| ZeroCheckpoint.Pop | deepspeed/checkpoint/zero_checkpoint.py:53-54 | drops the ignored keys |
| ZeroCheckpoint.PoppedKeeps | deepspeed/checkpoint/zero_checkpoint.py:53-54 | tensors and values under other keys stay |
| ZeroCheckpoint.MergeIn | deepspeed/checkpoint/zero_checkpoint.py:59-66 | one turn of the file loop appends the file's tensors, keeps the earlier values and resets the bookkeeping |
| ZeroCheckpoint.MergeFiles | deepspeed/checkpoint/zero_checkpoint.py:49-68 | for well-formed shards of one key tree, every tensor is the concatenation of what the files contribute, and outside the adjusted lists every other value is that of the first file |
| ZeroCheckpoint.Checkpoint.constructor | deepspeed/checkpoint/zero_checkpoint.py:21-32 | starts with the identity reshape |
| ZeroCheckpoint.Checkpoint.Reshape | deepspeed/checkpoint/zero_checkpoint.py:86-88 | succeeds exactly for reshapable targets; on failure the map stays, while the recorded target is the requested one |
| ZeroCheckpoint.RefusedReshape | deepspeed/checkpoint/zero_checkpoint.py:43-88 | after a refused reshape from data-parallel size 2 to 3 the map still has size 2, and a state read from it has the same tensors but the partition count 3 |
| ZeroCheckpoint.Checkpoint.GetFileIndicesForRank | deepspeed/checkpoint/zero_checkpoint.py:34-37 | fails exactly outside the mapped grid |
| ZeroCheckpoint.Checkpoint.GetStateForRank | deepspeed/checkpoint/zero_checkpoint.py:43-68 | the tensors of the cell's files in order, partition counts of the target, no padding left; the key tree and, outside the adjusted lists, every other value are those of the cell's first file without the ignored keys |
| ReshapeConservation.ReshapePreservesState | deepspeed/checkpoint/zero_checkpoint.py:43-88 | over the new data-parallel ranks, the states of a cell joined are the unpadded source shards of its ranks, in map order and data-parallel order |
| ReshapeConservation.CellsListSource | deepspeed/checkpoint/reshape_3d_utils.py:80-105 | the new cells of (i, j), joined, list the source shards rank by rank |
| ProcessGroups.GetMpuRanks | deepspeed/checkpoint/reshape_meg_2d.py:106-176 | the three families of groups, rank by rank |
| ProcessGroups.StageGroups | deepspeed/checkpoint/reshape_meg_2d.py:147-152 | the data-parallel groups of one stage |
| ProcessGroups.PickFrom | deepspeed/checkpoint/reshape_meg_2d.py:157-163 | a model-parallel group takes one rank of every data-parallel group |
| ProcessGroups.TensorGroups | deepspeed/checkpoint/reshape_meg_2d.py:168-172 | the tensor groups are consecutive stretches |
| ProcessGroups.DpPartition | deepspeed/checkpoint/reshape_meg_2d.py:132-176 | the data-parallel groups partition the ranks |
| ProcessGroups.MpPartition | deepspeed/checkpoint/reshape_meg_2d.py:132-176 | the model-parallel groups partition the ranks |
| ProcessGroups.TpPartition | deepspeed/checkpoint/reshape_meg_2d.py:132-176 | the tensor groups partition the ranks |
| ProcessGroups.DpMeetsMp | deepspeed/checkpoint/reshape_meg_2d.py:132-176 | a data-parallel and a model-parallel group share exactly one rank |
| ProcessGroups.DpMeetsTpAtMostOnce | deepspeed/checkpoint/reshape_meg_2d.py:132-176 | a data-parallel and a tensor group share at most one rank |
| ProcessGroups.TpInsideMp | deepspeed/checkpoint/reshape_meg_2d.py:132-176 | every tensor group lies inside one model-parallel group |
| Scheduler.Node.ReserveSlots | deepspeed/autotuning/scheduler.py:276-278 | the first slots are taken when there are enough, else nothing changes |
| Scheduler.Node.RestoreSlots | deepspeed/autotuning/scheduler.py:280-281 | slots are appended to the idle ones |
| Scheduler.Reservation.RestoreSlots | deepspeed/autotuning/scheduler.py:289-290 | the slots of a reservation return to its node |
| Scheduler.ResourceRequest | deepspeed/autotuning/scheduler.py:142-160 | succeeds exactly when enough nodes have enough idle slots; a grant is on different nodes; slots are conserved, also by the roll-back |
| Scheduler.ReserveNodes | deepspeed/autotuning/scheduler.py:142-158 | the request loop stops at the first node after which there are enough reservations, with slots conserved |
| Scheduler.TryNode | deepspeed/autotuning/scheduler.py:146-152 | one node of the request loop |
| Scheduler.RestoreAll | deepspeed/autotuning/scheduler.py:159-160 | giving reservations back restores the balance of every node |
| Scheduler.ReservingEnds | deepspeed/autotuning/scheduler.py:142-160 | the request loop ends with the requested number of reservations exactly when the request is satisfiable |
| Scheduler.SlotInOnePlace | deepspeed/autotuning/scheduler.py:142-195 | with balanced books every slot of a node is idle or in one live reservation, once |
| Scheduler.BalancedAfter | deepspeed/autotuning/scheduler.py:142-195 | a request on top of balanced books keeps them balanced |
| Scheduler.BalancedSplit | deepspeed/autotuning/scheduler.py:121-139 | the books, with survivors and finished experiments apart |
| Scheduler.SortSlots | deepspeed/autotuning/scheduler.py:186-187 | the slots of every reservation are sorted in place, other reservations stay |
| Scheduler.LaunchIsSound | deepspeed/autotuning/scheduler.py:142-192 | a granted launch has the right number of strictly increasing slots of existing, different nodes |
| Scheduler.RefusedMeansRunning | deepspeed/autotuning/scheduler.py:172-183 | a grantable request is refused only while something runs |
| Scheduler.GrantedIsGrantable | deepspeed/autotuning/scheduler.py:142-160 | what any balanced state grants would be granted with every slot idle |
| Scheduler.LimitsSuffice | deepspeed/autotuning/autotuner.py:65-67 | a request within the asserted limits is grantable |
| Scheduler.ResourceManager.constructor | deepspeed/autotuning/scheduler.py:28-49 | nodes with all slots idle, empty queues |
| Scheduler.ResourceManager.RunJob | deepspeed/autotuning/scheduler.py:95-119 | the experiment is running on its reservations |
| Scheduler.ResourceManager.StartJob | deepspeed/autotuning/scheduler.py:184-192 | a granted experiment starts, and slots stay conserved |
| Scheduler.ResourceManager.Collect | deepspeed/autotuning/scheduler.py:123-135 | the finished experiments are recorded and told from the others |
| Scheduler.ResourceManager.ExperimentCheck | deepspeed/autotuning/scheduler.py:121-140 | exactly the experiments whose thread is gone are recorded, give back their slots and stop running |
| Scheduler.ResourceManager.Step | deepspeed/autotuning/scheduler.py:171-192 | the head of the queue starts exactly when it asks for a node and its request can be met now; otherwise it stays the head while running experiments are checked; a request that is not grantable never starts |
| Scheduler.ResourceManager.Run | deepspeed/autotuning/scheduler.py:168-195 | when every queued request is grantable: terminates; launches in queue order, every queued and running experiment is recorded, nothing else is, and every slot ends idle |
| Scheduler.ResourceManager.Turns | deepspeed/autotuning/scheduler.py:168-195 | no number of turns gets past a request that is not grantable; what starts before it starts in queue order |
| Scheduler.ResourceManager.ScheduleExperiments | deepspeed/autotuning/scheduler.py:58-93 | the manager stays valid; every new path takes the next number; the queue is extended, in file order, by the first occurrences of the new paths whose results are not complete, each with its file's GPUs and nodes; a new number is recorded as finished exactly when its file left results |
| Scheduler.SurvivorsDecrease | deepspeed/autotuning/scheduler.py:121-140 | a check brings running experiments closer to their end |
| Scheduler.CheckMeaning | deepspeed/autotuning/scheduler.py:121-140 | exactly the jobs whose thread has ended finish, as often as they run; every other one survives |
| Scheduler.CheckSplits | deepspeed/autotuning/scheduler.py:121-140 | every running experiment survives a check or finishes in it |
| Scheduler.CheckTracked | deepspeed/autotuning/scheduler.py:121-140 | a check loses no experiment |
| Scheduler.StartTracked | deepspeed/autotuning/scheduler.py:171-192 | a start loses no experiment and keeps the launch order |
| Scheduler.IntakePaths | deepspeed/autotuning/scheduler.py:58-66 | every path is remembered, and every new path takes exactly one number |
| Scheduler.IntakeQueue | deepspeed/autotuning/scheduler.py:58-93 | the queue is extended by experiments with increasing new numbers |
| Scheduler.IntakeMeaning | deepspeed/autotuning/scheduler.py:58-93 | the same for the intake, read off the files alone |
| Scheduler.ScheduleTwice | deepspeed/autotuning/scheduler.py:58-63 | scheduling the same files again changes nothing |
| Text.Split | deepspeed/launcher/runner.py:251-255 | at least one part, none with the separator |
| Text.JoinOfSplit | deepspeed/launcher/runner.py:251-255 | splitting takes a text apart at every separator and nowhere else |
| Text.SplitOfJoin | deepspeed/launcher/runner.py:251-255 | parts without the separator survive joining and splitting |
| Text.ParsePrinted | deepspeed/launcher/runner.py:255 | a printed slot number is read back |
| Text.ParseSigned | deepspeed/launcher/runner.py:257 | a sign makes a printed number negative or leaves it |
| Text.ParseBlanks | deepspeed/launcher/runner.py:257 | blanks around a number do not matter |
| ResourceFilter.StableRemoveDuplicates | deepspeed/launcher/runner.py:207-214 | the first occurrences, in order |
| ResourceFilter.UniqueSame | deepspeed/launcher/runner.py:207-214 | a list without duplicates is kept |
| ResourceFilter.UniqueOrder | deepspeed/launcher/runner.py:207-214 | an earlier slot of the result occurs in the list before any occurrence of a later one |
| ResourceFilter.CheckSlots | deepspeed/launcher/runner.py:262-264 | reports the first slot the host does not have |
| ResourceFilter.ReportsFirst | deepspeed/launcher/runner.py:262-264 | the slot that is reported is the first one the host does not have |
| ResourceFilter.RemoveSlots | deepspeed/launcher/runner.py:267-270 | removes slots one by one, failing at the first absent one |
| ResourceFilter.RemoveAllMeaning | deepspeed/launcher/runner.py:267-270 | removal works exactly for distinct slots that are still there, and leaves the others in order |
| ResourceFilter.ApplyNode | deepspeed/launcher/runner.py:251-283 | one node specification, with its errors in order |
| ResourceFilter.ApplyNodes | deepspeed/launcher/runner.py:251-283 | all node specifications, up to the first error |
| ResourceFilter.CleanUp | deepspeed/launcher/runner.py:285-295 | duplicates and empty hosts go, in whatever order the hosts are visited |
| ResourceFilter.ParseResourceFilter | deepspeed/launcher/runner.py:217-304 | computes the filtered hosts or the error; two empty strings return the hosts as they are, two nonempty ones are the only cause of that error |
| ResourceFilter.ParseInclusionExclusion | deepspeed/launcher/runner.py:307-314 | filters hosts that start with all slots below their count |
| ResourceFilter.ActiveSlots | deepspeed/launcher/runner.py:307-314 | a host starts with the numbers from 0 up to its count in order, with none for a negative count |
| ResourceFilter.SelectTidy | deepspeed/launcher/runner.py:297-304 | the result lists known hosts in their order, each with slots and without duplicates |
| ResourceFilter.IncludeMeaning | deepspeed/launcher/runner.py:217-304 | accepted exactly when every specification is good; every host gets the slots of its last specification |
| ResourceFilter.ExcludeMeaning | deepspeed/launcher/runner.py:217-304 | accepted exactly when the specifications can be taken away in turn; every host keeps the slots no specification stands for |
| ResourceFilter.IncludeExclude | deepspeed/launcher/runner.py:217-304 | the two results share out a host's slots exactly when its last specification covers the earlier ones |
| ResourceFilter.Complementary | deepspeed/launcher/runner.py:217-304 | with hosts named at most once: accepted for exclusion exactly when no slot is listed twice, and then the results share out every host's slots |
| LaunchString.PrintInclude | deepspeed/autotuning/scheduler.py:319-325 | sorts every reservation and prints the include string of the sorted slots |
| LaunchString.TrailedIsJoined | deepspeed/autotuning/scheduler.py:320-325 | cutting off the last character leaves the specifications joined by the separator |
| LaunchString.ParsePrintedNode | deepspeed/launcher/runner.py:251-255 | a printed reservation is read as its host and slots |
| LaunchString.RoundTrip | deepspeed/launcher/runner.py:217-304 | for distinct known hosts without '@' and ':' in their names, the launcher reads exactly the printed slots, in host order, and nothing else |
| LaunchString.LaunchReachesItsSlots | deepspeed/autotuning/scheduler.py:319-331 | every sound launch of the scheduler is started on exactly the slots it reserved |
| LaunchString.NamedTwice | deepspeed/launcher/runner.py:251-283 | a host named twice: included with the later slots, excluded with none left |
| AdamRule.PublishedForm | csrc/adam/cpu_adam.cpp:62-78 | with bias correction the update is the published Adam step, with decay and averages written out |
| AdamRule.PlainForm | csrc/includes/cpu_adam.h:91-103 | without bias correction the parameter, after decay, moves by -lr * m / (sqrt(v) + eps), with decay and averages written out |
| AdamRule.PowAdds | csrc/includes/cpu_adam.h:71-90 | the powers of a beta: the first is beta, and powers multiply |
| DoubleBuffer.Streams.Background | csrc/includes/cpu_adam.h:214-223 | copies in progress do not change what will be delivered |
| DoubleBuffer.Streams.Store | csrc/includes/cpu_adam.h:206-208 | a buffer is written only while no copy from it is pending, and that changes nothing to be delivered |
| DoubleBuffer.Streams.Put | csrc/adam/cpu_adam.cpp:75 | a value goes behind those already in the buffer while other copies go on |
| DoubleBuffer.Streams.Launch | csrc/adam/cpu_adam.cpp:85-90 | a copy adds its range of the buffer to what will be delivered |
| DoubleBuffer.Streams.Synchronize | csrc/includes/cpu_adam.h:171 | afterwards the stream has no pending copy |
| DoubleBuffer.Streams.SynchronizeStreams | csrc/includes/cpu_adam.h:67-70 | afterwards the device holds everything that was to be delivered |
| DoubleBuffer.FirstCopies | csrc/includes/cpu_adam.h:214-223 | one more element copied from the first buffer leaves the outcome unchanged |
| DoubleBuffer.SecondCopies | csrc/includes/cpu_adam.h:214-223 | the same for the second buffer while the first is being copied elsewhere |
| CpuAdam.AdamOptimizer.constructor | csrc/includes/cpu_adam.h:25-47 | step 0, powers 1, no copy pending |
| CpuAdam.AdamOptimizer.IncrementStep | csrc/includes/cpu_adam.h:71-90 | after any history the cached powers are beta^step of the given step |
| CpuAdam.AdamOptimizer.UpdateState | csrc/includes/cpu_adam.h:91-103 | the coefficients are those computed directly from the arguments of the step |
| CpuAdam.AdamOptimizer.ScalarCell | csrc/adam/cpu_adam.cpp:58-83 | exactly one cell makes one Adam step |
| CpuAdam.AdamOptimizer.SimdLoad | csrc/includes/simd.h:67-72 | consecutive registers hold consecutive elements |
| CpuAdam.AdamOptimizer.SimdStore | csrc/includes/simd.h:60-65 | consecutive registers are stored to consecutive elements, the rest stays |
| CpuAdam.AdamOptimizer.SimdUpdate | csrc/includes/cpu_adam.h:186-203 | every lane makes one Adam step |
| CpuAdam.AdamOptimizer.SimdBlock | csrc/includes/cpu_adam.h:173-211 | exactly the cells of one block make one Adam step |
| CpuAdam.AdamOptimizer.ScalarTile | csrc/adam/cpu_adam.cpp:57-84 | the cells of a tile make one step, and their parameters are in the buffer |
| CpuAdam.AdamOptimizer.VectorTile | csrc/includes/cpu_adam.h:172-211 | the same with blocks of vector registers |
| CpuAdam.AdamOptimizer.CopyOut | csrc/adam/cpu_adam.cpp:85-90 | the tile is sent, and the buffers change roles |
| CpuAdam.AdamOptimizer.TileLoop | csrc/includes/cpu_adam.h:167-223 | in streams with room for this loop and the ones to follow, no buffer is overwritten while its copy is pending, every index of the range steps once, and the device will hold the converted parameters; afterwards there is room for the loops to follow |
| CpuAdam.AdamOptimizer.VectorPart | csrc/includes/cpu_adam.h:126-225 | the vector loop covers the length rounded down to whole blocks |
| CpuAdam.AdamOptimizer.Step1 | csrc/adam/cpu_adam.cpp:19-93 | every index of the range makes one Adam step, nothing else changes, and with room for its loops the device will hold the converted parameters |
| CpuAdam.AdamOptimizer.Step4 | csrc/adam/cpu_adam.cpp:95-122 | the same for the cascade from spans of four |
| CpuAdam.AdamOptimizer.Step8 | csrc/adam/cpu_adam.cpp:164-191 | the same for the whole cascade, any length and build |
| CpuAdam.AdamOptimizer.DsAdamStep | csrc/adam/cpu_adam.cpp:193-233 | every parameter makes one step by the rule of the given step number, whatever happened before |
| CpuAdam.AdamOptimizer.DsAdamStepPlusCopy | csrc/adam/cpu_adam.cpp:235-275 | for every length whose loops never write a buffer with a copy that may be pending: every parameter makes one step, and the device array holds the converted parameters |
| CpuAdam.SteppedOn | csrc/adam/cpu_adam.cpp:51-84 | steps on neighbouring ranges are one step on their union |
| CpuAdam.UpdateIsAdam | csrc/adam/cpu_adam.cpp:62-78 | the sequence of instructions is the Adam or AdamW formula |
| BufferUse.StepIsSafe | csrc/adam/cpu_adam.cpp:19-191 | from idle streams, a step never writes a buffer whose copy may be pending exactly when it runs at most one nonempty loop, or two of which the first has at most one tile |
| BufferUse.UseIsSafe | csrc/adam/cpu_adam.cpp:19-191 | the same from any state of the two buffers: as many loops may run as buffers are free |
| BufferUse.LoopRuns | csrc/includes/cpu_adam.h:167-223 | a nonempty loop uses up one of the loops that may run |
| BufferUse.WaitingTiles | csrc/includes/cpu_adam.h:171 | from its third tile on a loop waits for the buffer it writes |
| BufferUse.ThreeLoops | csrc/adam/cpu_adam.cpp:164-191 | 208 parameters on 16 lanes run loops of 128, 64 and 16, which is unsafe |
| BufferUse.WrongDelivery | csrc/adam/cpu_adam.cpp:51-91 | in that step element 0 of the device array can be delivered as parameter 192 |
| BlockReduce.ReduceBlockIntoLanes | csrc/includes/type_shim.h:77-119 | for block sizes that are powers of two, lane l ends with the sum of all values whose thread id is l modulo the lanes, for every interleaving |
| BlockReduce.Round | csrc/includes/type_shim.h:93-96 | between two barriers no thread reads what another writes: every interleaving has the outcome of all threads at once |
| BlockReduce.SharedRounds | csrc/includes/type_shim.h:87-96 | the rounds reduce the block to 64 residue sums |
| BlockReduce.WarpRounds | csrc/includes/type_shim.h:98-110 | the shuffle rounds reduce a warp to the lanes |
| BlockReduce.HalvingStep | csrc/includes/type_shim.h:93-110 | sums modulo n are pairwise sums modulo 2n |
| BlockReduce.OwnValue | csrc/includes/type_shim.h:87-104 | with a lane per thread a lane's sum is its own value |
| TensorParallel.SplitTensorAlongLastDim | deepspeed/compression/basic_layer.py:705-723 | fails exactly when the partition count is zero or does not divide; equal chunks that join to the tensor |
| TensorParallel.Split | deepspeed/compression/basic_layer.py:726-743 | a rank gets its own chunk |
| TensorParallel.Gather | deepspeed/compression/basic_layer.py:746-766 | every rank gets the join in rank order |
| TensorParallel.Reduce | deepspeed/compression/basic_layer.py:691-702 | every rank's tensor becomes the sum |
| TensorParallel.ColumnParallelIsSerial | deepspeed/compression/basic_layer.py:834-874 | gathered column-parallel outputs are the unsharded layer, bias once |
| TensorParallel.RowParallelIsSerial | deepspeed/compression/basic_layer.py:877-923 | row-parallel with split and all-reduce is the unsharded layer, bias once |
| TensorParallel.PartialsSumUp | deepspeed/compression/basic_layer.py:903-923 | the partial products add up to the product |
| TensorParallel.ColumnIntoRowIsSerial | deepspeed/compression/basic_layer.py:834-923 | an ungathered column layer, an activation and a row layer compute the serial composition |
| Pruning.MaskedOutputs | deepspeed/compression/basic_layer.py:227-250 | a masked layer gives the full outputs with pruned ones at zero |
| Pruning.ReducedOutputs | deepspeed/compression/basic_layer.py:227-250 | a row-reduced layer gives the kept outputs |
| Pruning.RowPruningPreservesMeaning | deepspeed/compression/basic_layer.py:227-267 | reducing F1's rows and F2's columns computes the same as masking, for any pointwise activation that keeps zero |
| Pruning.DotKeep | deepspeed/compression/basic_layer.py:255-265 | dropping zero entries keeps a product |
| Pruning.MaskedRowsAreScaledBlocks | deepspeed/compression/basic_layer.py:390-395 | masking through the reshaped view scales whole heads |
| Pruning.ReducedRowsAreKeptBlocks | deepspeed/compression/basic_layer.py:269-310 | dropping rows of the reshaped view drops whole heads |
| HeadPruning.HeadPruningPreservesMeaning | deepspeed/compression/basic_layer.py:269-310 | cutting pruned heads out of Q, K, V and O gives the same output as masking O, for any per-head function |
| HeadPruning.OutputLayer | deepspeed/compression/basic_layer.py:269-292 | the masked O matrix equals the reduced one on the kept heads |
| HeadPruning.ReducedHeads | deepspeed/compression/basic_layer.py:296-308 | the heads of the reduced projections are the kept heads |
| HeadPruning.MaskedColumns | deepspeed/compression/basic_layer.py:390-395 | entry by entry, which columns the mask scales |
| CompressedLinear.LinearLayer.FixRowPruning | deepspeed/compression/basic_layer.py:227-267 | without reduction the layer computes what it did; with it the kept rows remain |
| CompressedLinear.LinearLayer.FixColumnPruning | deepspeed/compression/basic_layer.py:255-267 | without an enabled head mask, the pruned input columns go |
| CompressedLinear.LinearLayer.FixHeadPruning | deepspeed/compression/basic_layer.py:269-295 | without reduction the layer computes what it did; with it the kept heads remain |
| CompressedLinear.LinearLayer.ForwardMeaning | deepspeed/compression/basic_layer.py:414-422 | a pruned row gives 0, any other one its output without the inputs of pruned heads |
| CompressedLinear.LinearLayer.FixHeadRows | deepspeed/compression/basic_layer.py:296-310 | without row or head masks of its own, rows and bias entries of pruned heads go |
| CompressedLinear.MasksCommute | deepspeed/compression/basic_layer.py:412-422 | masking rows and masking heads commute |
| Elastic.GetValidGpus | deepspeed/elasticity/elasticity.py:75-94 | exactly the counts in the limits for which some micro batch decomposes the batch, increasing |
| Elastic.GpusOfMicroBatch | deepspeed/elasticity/elasticity.py:78-91 | one micro batch: all divisors of the quotient in the limits |
| Elastic.CandidateOf | deepspeed/elasticity/elasticity.py:63-69 | a base not below the maximum is kept, else the largest table multiple within it |
| Elastic.ScaleByTable | deepspeed/elasticity/elasticity.py:67-69 | the entry before the first too large one, and the last entry when none is too large |
| Elastic.GetCandidateBatchSizes | deepspeed/elasticity/elasticity.py:61-72 | the set of candidates, one per base |
| Elastic.GetBestCandidates | deepspeed/elasticity/elasticity.py:97-122 | the best candidate in the selection's order, which the next lemmas spell out |
| Elastic.SelectionIsUnique | deepspeed/elasticity/elasticity.py:97-122 | the selection does not depend on the candidate order |
| Elastic.SelectedHasMostGpus | deepspeed/elasticity/elasticity.py:97-122 | no candidate has more valid GPU counts than the selected one |
| Elastic.SelectedWinsTies | deepspeed/elasticity/elasticity.py:113-117 | among candidates with as many valid counts the selected batch is the largest when larger ones are preferred and the smallest otherwise |
| Elastic.NothingSelected | deepspeed/elasticity/elasticity.py:103-122 | nothing is selected exactly when the batch is the least micro batch, no candidate has a valid count, and none is preferred to it |
| Elastic.EffectiveLimits | deepspeed/elasticity/elasticity.py:147-148 | limits that are given are kept; a missing lower limit is 1, a missing upper limit admits exactly the counts for which some micro batch on every GPU stays within the maximum |
| Elastic.GetCompatibleGpusV01 | deepspeed/elasticity/elasticity.py:125-170 | fails exactly when a micro batch exceeds the maximum; with the least common multiple within the maximum, so is the batch |
| Elastic.AdvertisedDecompose | deepspeed/elasticity/elasticity.py:125-170 | every advertised count decomposes the batch within the limits |
| Elastic.DividesProduct | deepspeed/elasticity/elasticity.py:75-94 | m*g divides the batch exactly when m does and g divides the quotient |
| Elastic.ShareDivides | deepspeed/elasticity/elasticity.py:405-413 | the test of the micro-batch loop is the decomposition of the batch |
| Elastic.PickMicroBatch | deepspeed/elasticity/elasticity.py:405-413 | the largest micro batch that divides one GPU's share, or none |
| Elastic.MicroBatchForWorld | deepspeed/elasticity/elasticity.py:400-419 | for an advertised count the assertion holds and the batch is exactly micro batch x steps x GPUs, with the largest such micro batch |
| Elastic.PlanIsUnique | deepspeed/elasticity/elasticity.py:125-170 | a configuration has one batch and one list of counts, although the candidates form a set |
| Elastic.ComputeElasticConfigV01 | deepspeed/elasticity/elasticity.py:363-419 | succeeds exactly when no micro batch is oversized and the one plan of the configuration advertises the count; the result is that plan with the largest fitting micro batch, and the count lies in the limits |
| Elastic.GetMicrobatch | deepspeed/elasticity/elasticity.py:193-202 | the first or the largest micro batch that divides a GPU's share |
| Elastic.GetCompatibleGpusV02 | deepspeed/elasticity/elasticity.py:173-216 | model parallel size 1, first return path: every advertised count decomposes the batch, a micro batch is found, the batch is at most the maximum when the least common multiple fits a node's share, and the GPU limits are kept under the exact condition |
| Elastic.PlanKeepsLimits | deepspeed/elasticity/elasticity.py:173-216 | the advertised counts respect the upper limit exactly when it allows one node, and the lower one exactly when it is at most one node, a whole number of nodes, or its rounded-down node count is not advertised |
| Elastic.LimitsLeft | deepspeed/elasticity/elasticity.py:173-216 | with 8 GPUs a node, limits of 1 to 4 and of 12 to 16 both advertise 8 and 16 |

## Left out

- BlockSegmentation.SddSegment: for start widths of 3 and more a pass can store more rows for a head than scratch has, because the table does not force all of a grid to be nonzero. One head with rows 0011111, 1011111, 1000011, 0000000 and 0011100 has entry sum 17 and 18 rows in the pass of width 3. There the source writes past the tensor and the returned rows are not determined; the model says nothing about them. Nor does it say that a grid of a wide pass is all nonzero, which fails there: only its last row and last column are.
- BlockSegmentation.Emit: the write past scratch that the source makes in that case is skipped, while the row still counts.
- BlockSegmentation.SegmentBlocks: the returned segment of a pass in which a head outgrows scratch, as above.
- BlockSegmentation.CollectRows: the same.
- Meg2dReshape.ReshapeTpDimension: maps other than a freshly initialised one, the only ones it is called with.
- Meg2dReshape.ReshapePpDimension: maps other than the result of the tensor step, the only ones it is called with.
- Reshape3d.FlattenDpDimension: maps with an empty cell, which a reshaped map never has.
- Reshape3d.UnflattenDpDimension: maps whose cells differ in length, which a flattened reshaped map never has.
- ZeroCheckpoint.StripTensorPaddings: shards with a group that has no padding entry, or a padding longer than a tensor, on which the source raises an error.
- ZeroCheckpoint.StripGroups: the same groups.
- ZeroCheckpoint.MergeFiles: files that are no such shards or whose key trees differ. What merging two states with different trees does is stated by `StateMerge.MergeLeaf`.
- ZeroCheckpoint.Checkpoint.constructor: directories with fewer files than the grid has shards, or with files that are no such shards or whose key trees differ.
- ZeroCheckpoint.Checkpoint.GetStateForRank: checkpoints over such directories.
- ReshapeConservation.ReshapePreservesState: checkpoints over such directories.
- CpuAdam.AdamOptimizer.DsAdamStepPlusCopy: with a device array, lengths whose loops write a buffer with a copy that may be pending. There the delivered array depends on how far the copies have come; `BufferUse.StepIsSafe` says which lengths these are, `BufferUse.WrongDelivery` shows a wrong outcome.
- CpuAdam.AdamOptimizer.Step8: the same lengths, when copying.
- CpuAdam.AdamOptimizer.Step4: the same, when copying without room for its loops.
- CpuAdam.AdamOptimizer.Step1: the same, when copying without room for its loops.
- CpuAdam.AdamOptimizer.VectorPart: the same, when copying without room for its loop and the ones to follow.
- CpuAdam.AdamOptimizer.TileLoop: the same.
- BlockReduce.ReduceBlockIntoLanes: block sizes that are not powers of two; the threads beyond the first warp, whose result the source leaves undefined.
- BlockReduce.SharedRounds: block sizes that are not powers of two.
- CompressedLinear.LinearLayer.FixColumnPruning: a layer with an enabled head mask, since column removal changes the head layout.
- CompressedLinear.LinearLayer.FixHeadRows: a layer with row or head masks of its own.
- Elastic.GetCompatibleGpusV02: model parallel sizes above 1 and the floating-point path for a GPU count that is not advertised, which appears as a separate result.
- Half precision parameters and gradients, rounding, and integer wrap-around of step counters in the Adam kernel.
- Elastic.GetCompatibleGpusV01: the least common multiple is a parameter that is required to be one; how it is computed is not modelled.
- Pruning.RowPruningPreservesMeaning: masks are given; how scores select them is not modelled.
- Sparse pruning, quantization, convolution and batch-norm layers.
- Text.ParsePrinted: `int` reads ASCII digits, underscores, signs and blanks; other Unicode digits and blanks and the digit-count limit are not modelled.
- Scheduler.ResourceManager.ScheduleExperiments: what a result directory holds is an input (missing or interrupted, without metrics, or complete); the error text stored with a finished experiment is dropped.
- Scheduler.ResourceManager.Run: threads, waiting times, the progress bar and the user-argument mapping of a job.
- `ResourceManager.clear`, parsing of metric files and the choice of the best experiment.
- Loading files, listing and sorting checkpoint directories, and reading a descriptor from file names: files are states at an index.
- Other entries of a checkpoint than dictionaries, lists, tuples and flat tensors are compared by type only.
- TensorParallel.Reduce: the collective itself is its effect on all ranks; backward passes are not modelled.
- Mutual effects of several pruning keywords on one layer list.
