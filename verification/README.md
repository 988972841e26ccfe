# CACTI 6.5 design-space search

A Dafny model of the part of CACTI 6.5 (with the component reader of McPAT) that decides *which* memory is built:
the parallel enumeration of array partitions, the geometry checks, the merge of the workers' lists and minima, the
in-place filters, and the final choice; and the searches and closed-form structures around it - repeated wires,
H-trees, gate chains, predecoders, the NUCA grid and list, and the layout of a McPAT description.

The circuit model is an oracle from a partition to "rejected" or a bitline-multiplexing degree and positive metrics.
`double` is `real`, `(int)(x + 0.5)` is floor(x + 1/2), and square root, logarithm, power and gate capacitance are
parameters with the one or two facts a result needs. Lists are rings with a sentinel, because the program steps back
over the front after erasing it.

## How the modules fit

- `BasicCircuit`, `Parameter`, `Conservation`, `TagGeometry`, `Io`, `Decoder`, `Mat`: integer logarithms, the geometry
  of a partition, and what the early rejections guarantee about it.
- `DesignSpace`, `MemArray`, `StableMerge`, `Schedule`, `Workers`: the points each worker visits, the sort key, stable
  sort and merge, and threads whose steps interleave arbitrarily over one allocator.
- `ThreadCount`, `Copies`, `DramTags`: when the merged list depends on the number of workers, what about it never
  does, and the input that decides.
- `Select`, `Filters`, `Costs`, `Solve`, `WireTypes`, `RunOptimality`, `MissedArrays`: choosing, filtering, freeing, and
  what the weights and deviations mean for a choice; the whole run; whether it delivers the best organization, and when
  it can miss it.
- `Delivered`, `FullyAssociative`: the geometry of what a run delivers.
- `Repeater`, `Wire`: the repeater optimum and the wire classes. `Htree`, `GateChain`: closed forms of loops.
- `NucaGrid`, `Nuca`, `SimNuca`: the grid of banks, the choice among NUCA organizations, the enumeration before it.
- `StdList`, `Sequences`: the list the program erases from while walking, and appending.
- `XmlLayout`: comma lists and the cursor over the components of a description.

## What turned out to be conditional

Each of these reads as unconditional in the code's comments or its use; the exact condition is proved.

- The weighted search overlooks one entry when the entry that ends the improving prefix is infeasible
  (`Select.ExactOptimality`, `Select.OverlookedWitness`). A whole run delivers the best organization it combined if and
  only if that one is not the overlooked entry or a copy of it comes next (`RunOptimality.OptimalExactly`). Over one
  wire type the geometry decides: if and only if it accepts two partitions, some circuit makes every run report that
  nothing meets the criteria while an array does (`MissedArrays.MissedExactly`, `MissedArrays.KilobyteMissed`). Over
  several, since the circuit model never sees the wire type, the overlooked entry is a copy of the infeasible one, and
  nothing is lost (`WireTypes.SolvedOptimally`).
- The merged list never depends on the schedule. Over several wire types n threads leave the list of one if and only if
  the loop indices at which a key is accepted all fall to one of the n (`ThreadCount.WorkersMatter`), which for the
  program's geometry means: n is one, or the array is not a set-associative DRAM tag array of which several column
  multiplexings are searched and some partition is accepted (`DramTags.ThreadCountByInput`, `DramTags.DramTagsReorder`).
  What a run delivers is the same for every number of threads even then (`WireTypes.OutcomeThreadIndependent`).
- Capacity is conserved if and only if one row of all subarrays divides it; 1000 bytes become 1024
  (`Conservation.CapacityExact`, `Conservation.OddCapacityGrows`).
- The data array of a fully associative cache is laid out as a tag array: its rows are as wide as a tag, and there is
  one for every line if and only if there is one bank and the lines divide evenly among the subarrays; with two banks
  there are twice as many (`FullyAssociative.DeliveredAsTags`, `FullyAssociative.EntriesExact`,
  `FullyAssociative.TwoBanksDouble`). A fully associative memory that is no cache has no arrays at all
  (`FullyAssociative.NoArraysWithoutTags`).
- The input check lets an output width of zero through, and then the doubling loop of the data search never ends
  (`Io.DataSearchEnds`, `Io.NoOutputIsChecked`).
- A tag of a cache with several banks can be too narrow: the bank bits are taken off twice, and the width covers what
  the sets of a bank, the line and the bank leave over if and only if rounding up to four makes up for it
  (`TagGeometry.BankBitsTwice`, `TagGeometry.TagsOneBitShort`).
- A lone subarray multiplexed beyond its columns is addressed more than once (`Conservation.ClippedArrayOvercounts`).
- A fully associative bank smaller than a line divides by zero in the input check (`Io.InputParameter.ErrorChecking`,
  `Io.ShortOfALineDivides`).
- The candidates for the wire classes are timed with the output capacitance where the delay optimum uses the input
  capacitance, so the wire recorded as delay optimal need not be the fastest candidate
  (`Wire.FirstIsFastest`, `Wire.DrainHeavyIsFasterSmaller`).
- A NUCA entry's grid holds its banks if and only if the latest search that beat its starting bound was for as many
  banks (`SimNuca.GridOfEntry`, `SimNuca.FirstGridIsEmpty`); the second entry is passed over when the first is
  infeasible (`Nuca.NucaExactOptimality`, `Nuca.SecondPassedOver`).
- In an H-tree the vertical link of a combined step leaks twice (`Htree.InterbankTotals`).
- Gate sizes grow towards the load only for an effort of at least one in the branch taken (`GateChain.ChainShape`).
- A McPAT description with a single component ahead of the memory controller is looked up at the core
  (`XmlLayout.EachChildOnce`, `XmlLayout.LoneCore`).

## Model

| member | source | states |
|---|---|---|
| BasicCircuit.ComputeLog2 | cacti65/basic_circuit.cc:48-65 | the shift loop returns the k with 2^k <= num < 2^(k+1), and exits exactly on zero |
| BasicCircuit.IsPow2 | cacti65/basic_circuit.cc:68-82 | comparing the logarithms of val and val-1 decides whether val is a power of two, for every integer |
| BasicCircuit.Powers | cacti65/basic_circuit.cc:85-93 | the product loop is base^n, and 1 for every negative exponent |
| BasicCircuit.RoundRatio | cacti65/parameter.cc:287-289 | adding one half and truncating a ratio of powers of two is exact from 2^0 up, one at 2^-1, zero below |
| Parameter.DynamicParameter.constructor | cacti65/parameter.cc:207-551 | the field-by-field construction with its early returns ends valid exactly for the accepted partitions, with the final geometry |
| Parameter.DynamicParameter.ActivateMats | cacti65/parameter.cc:440-485 | number of active mats and the tag path's overwrite of the mat output; stops exactly when activation cannot fit |
| Parameter.DynamicParameter.CountBits | cacti65/parameter.cc:487-548 | address bits of mat and subbank, data bits into and out of mat, subbank and bank port, and way-select signals, with the ECC adjustment last |
| Parameter.AcceptedLogs | cacti65/parameter.cc:503-522 | no accepted partition hands zero to the logarithm, which would exit |
| Parameter.TagBitsPositive | cacti65/parameter.cc:245-297 | over unbounded integers a tag width that comes out non-positive is turned away by the column minimum |
| Parameter.WrappedColsRejectAlike | cacti65/parameter.cc:274-298 | the product is unsigned in the program: of 32-bit inputs a negative width wraps around and fails the column maximum instead, so the same partitions are rejected |
| TagGeometry.RowsNearest | cacti65/parameter.cc:264-293 | rows are the nearest whole number to the capacity over banks, block, the array's own associativity, Ndbl and Nspd, for tag and data arrays and any input |
| TagGeometry.ColsNearest | cacti65/parameter.cc:264-293 | columns are the nearest whole number to the bits of a set, tags or lines, times Nspd over Ndwl |
| TagGeometry.TagRowsExact | cacti65/parameter.cc:272-273 | the rows of a tag array times what one row of all subarrays of all banks serves are the capacity if and only if that divides it |
| TagGeometry.TagRowsConserved | cacti65/parameter.cc:272-297 | with powers of two the minimum row count guarantees it |
| TagGeometry.TagCellsExact | cacti65/parameter.cc:272-275 | then the cells of a tag array are one tag for every line if and only if the tags of a set spread evenly over the subarrays side by side |
| TagGeometry.TagWidth | cacti65/parameter.cc:245-262 | a set-associative tag is the least multiple of four that covers the 42 address bits and 5 more, less those of all sets, of a line and of the bank |
| TagGeometry.FullyAssociativeTagWidth | cacti65/parameter.cc:251-262 | a fully associative tag is the least multiple of four that covers them, less those of a line |
| TagGeometry.GivenTagWidth | cacti65/parameter.cc:245-262 | a width given by the user is rounded up to a multiple of four |
| TagGeometry.BankBitsTwice | cacti65/parameter.cc:257-262 | a tag covers what the sets of its own bank, the line and the bank leave over if and only if the rounding makes up for the bank bits |
| TagGeometry.TagsOneBitShort | cacti65/parameter.cc:257-262 | a 64 KB 4-way cache of two banks whose tags of 32 bits are one bit short |
| TagGeometry.ShortTagsAreChecked | cacti65/io.cc:832-1005 | that cache passes the input check |
| Io.InputParameter.ErrorChecking | cacti65/io.cc:832-1005 | exact outcome of the input check on every input: rejected, checked with all derived fields, or the unguarded division by zero |
| Io.ShortOfALineDivides | cacti65/io.cc:921-960 | an input on which the check divides by zero: 64 bytes, fully associative, in lines of 128 |
| Io.OddCapacityIsChecked | cacti65/io.cc:832-1005 | a 1000-byte memory passes the input check, with the fields whose geometry is laid out as 1024 bytes |
| Io.CheckedOrganization | cacti65/io.cc:921-990 | which of the powers of two the conservation laws need are supplied by the check itself |
| Io.FullyAssociativeIsOneSet | cacti65/io.cc:934-998 | a fully associative bank that passes is a single set, so the later test on the number of sets cannot fail |
| Io.DataSearchEnds | cacti65/Ucache.cc:149-149 | of a checked input the doubling of Nspd in the data search passes its maximum if and only if some output bit is asked for |
| Io.NoOutputIsChecked | cacti65/io.cc:860-873 | an input of which no bit is sent out that passes the check |
| Conservation.RowsRatio | cacti65/parameter.cc:287-288 | the row count is a rounded ratio of naturals whatever Nspd is |
| Conservation.AcceptedExact | cacti65/parameter.cc:287-298 | the minimum row and column counts reject every case in which rounding changed a quotient |
| Conservation.CapacityExact | cacti65/parameter.cc:287-300 | for any capacity, rows times columns times subarrays times banks is 8 times the capacity if and only if one row of all subarrays divides it |
| Conservation.CapacityConserved | cacti65/parameter.cc:287-300 | with power-of-two inputs every accepted data array holds exactly the capacity |
| Conservation.OddCapacityGrows | cacti65/parameter.cc:287-300 | an accepted partition of a 1000-byte memory is laid out as 1024 bytes |
| Conservation.MatOutByExp | cacti65/parameter.cc:380-383 | the division giving a mat's output bits is exact unless clipped up to one |
| Conservation.ActiveMatsDeliver | cacti65/parameter.cc:380-450 | the mats one access activates put out exactly the bits of the subbank, in all three access modes |
| Conservation.AddressBitsConserved | cacti65/parameter.cc:380-522 | in all three access modes an accepted array addresses every bit of its bank once, if and only if it has two subarrays or is not multiplexed beyond its columns |
| Conservation.ClippedArrayOvercounts | cacti65/parameter.cc:383 | a concrete accepted array meeting every premise of the law, one subarray with excess multiplexing, that is addressed more than once |
| Io.SmallIsChecked | cacti65/io.cc:832-1005 | that array's memory passes the input check |
| Decoder.PredecBlk.constructor | cacti65/decoder.cc:252-333 | which predecode block exists and how many address bits it gets |
| Decoder.PredecBlk.ComputeWidths | cacti65/decoder.cc:337-403 | the switch on address bits sets exactly the gate groups of that width; its default is unreachable from 1 to 9 bits |
| Decoder.PredecBlk.ComputeArea | cacti65/decoder.cc:524-618 | the switch sets 2^g first-level gates for each group of g bits and one second-level gate per output |
| Decoder.SecondLevelFullyDriven | cacti65/decoder.cc:347-403 | total fan-out of the first level equals total fan-in of the second, for every row of the two tables |
| Decoder.BlockBitsInRange | cacti65/decoder.cc:284-329 | up to 2^18 signals both blocks get 1 to 9 bits, so the failing default is unreachable |
| Decoder.BlocksCoverAddress | cacti65/decoder.cc:284-329 | the existing blocks share out the address bits with none lost |
| Decoder.PredecBlkDrv.constructor | cacti65/decoder.cc:833-965 | drivers by load: every address bit driven once and every first-level gate input served, or one buffer per way when selecting among ways, or nothing |
| Mat.AcceptedMatAssertions | cacti65/mat.cc:62-66 | any accepted power-of-two partition has 1 to 4 subarrays per mat and 1 to 2 per mat row |
| Mat.RowBlocksBalanced | cacti65/decoder.cc:284-329 | an accepted set-associative subarray always has two row blocks of 2 to 9 bits differing by at most one |
| Mat.BuildPredecoder | cacti65/decoder.cc:281-333 | both blocks in front of a decoder of up to 2^18 signals are built without an assertion failing |
| Mat.BuildMatPredecoders | cacti65/parameter.cc:504-522 | all four predecoders of an accepted mat can be built and their inputs add up to the mat's address bits |
| DesignSpace.DecodeEncode | cacti65/Ucache.cc:125-128 | the division and remainder reconstruction of a loop index inverts its mixed-radix encoding |
| DesignSpace.EncodeDecode | cacti65/Ucache.cc:154-158 | every loop index is the encoding of its reconstruction, and the indices below niter are the triples in bounds |
| DesignSpace.Coverage | cacti65/Ucache.cc:149-163 | for any number of workers every point of the space is visited exactly once, by exactly one worker, per Nspd and wire type |
| DesignSpace.NothingElse | cacti65/Ucache.cc:149-163 | no worker visits anything outside the bounds |
| MemArray.LtTotal | cacti65/cacti_interface.cc:61-75 | the comparison is a strict total order on the six key fields |
| MemArray.LtTransitive | cacti65/cacti_interface.cc:61-75 | and transitive, as the library's sort requires |
| Schedule.MergedInOrder | cacti65/Ucache.cc:637-643 | the merged list of any number of workers never goes down in Nspd, at equal Nspd not in Ndwl, then Ndbl, the degree, and the two multiplexings |
| MemArray.MinOverIsBelow | cacti65/Ucache.cc:96-103 | running minima bound every array folded in |
| MemArray.MinOverIsAttained | cacti65/Ucache.cc:96-103 | each component is attained by some array or still the initial bound |
| MemArray.MinimaUnique | cacti65/Ucache.cc:96-103 | minima depend only on which arrays there are, not on their order or multiplicity |
| MemArray.MergeIsFold | cacti65/Ucache.cc:681-685 | merging a worker's minima equals folding in everything that worker saw |
| MemArray.EdOrder | cacti65/Ucache.cc:421-431 | the normalized energy-delay cost orders organizations as the plain product does |
| MemArray.Ed2Order | cacti65/Ucache.cc:432-443 | the same for energy times delay squared |
| Costs.WithinIsAllowed | cacti65/Ucache.cc:350-396 | an organization is within the deviations exactly when each figure is at most its own percentage above its own minimum |
| Costs.CostIsSurplus | cacti65/Ucache.cc:452-456 | costs differ by the weighted differences of the figures in shares of their minima |
| Costs.CostFromMinima | cacti65/Ucache.cc:452-456 | a cost is the sum of the weights plus what the organization has over the minima |
| Costs.OneWeightDecides | cacti65/Ucache.cc:452-456 | when a single weight is positive that one figure decides, in all five cases |
| Costs.DifferenceDecides | cacti65/Ucache.cc:452-456 | of organizations that differ in one figure the lower one is cheaper when its weight is positive, and they tie when it is zero |
| Costs.ChosenIsPreferred | cacti65/Ucache.cc:445-471 | whatever the weighted search chooses is within the deviations, and nothing else within them that the walk looks at is cheaper by its figures, the first winning ties |
| Costs.NoneAffordable | cacti65/Ucache.cc:445-471 | when nothing is chosen, everything within the deviations that the walk looks at costs BIGNUM or more |
| Costs.KeptIsPreferred | cacti65/Ucache.cc:497-533 | the same for the tag array kept, the one nearest the back winning ties |
| Costs.NucaChosenIsPreferred | cacti65/nuca.cc:549-575 | the same for the NUCA search, but for the second entry behind an infeasible first |
| StableMerge.SortedUnique | cacti65/Ucache.cc:637-643 | two sorted lists with the same subsequence for every key are equal |
| StableMerge.MergeOfKey | cacti65/Ucache.cc:640 | a merge keeps, for each key, the receiver's entries followed by the donor's |
| StableMerge.SortOfKey | cacti65/Ucache.cc:639 | the sort is stable |
| StableMerge.SortSorted | cacti65/Ucache.cc:639 | and sorts |
| StableMerge.MergeSorted | cacti65/Ucache.cc:640 | merging sorted lists gives a sorted list |
| Schedule.MergedIsParallel | cacti65/Ucache.cc:637-643 | whatever pointers the workers hold, sort and merge of their lists depends only on the circuit, the space and the number of workers |
| Schedule.WorkerView | cacti65/Ucache.cc:149-209 | of each sort key, a worker keeps exactly its share of the loop indices at which the key is accepted, once per wire type |
| Schedule.ParallelMember | cacti65/Ucache.cc:637-643 | every merged entry was produced by some worker at a point it visited |
| ThreadCount.WorkersMatter | cacti65/Ucache.cc:605-673 | for each n: over several wire types n workers leave the list of one sequential worker, entry by entry, if and only if the indices at which a key is accepted all fall to one of the n |
| ThreadCount.ThreadCountIndependence | cacti65/Ucache.cc:605-673 | every number of workers does if and only if no two loop indices hold accepted partitions of equal key |
| ThreadCount.NoTwinsIndependent | cacti65/Ucache.cc:637-673 | the sufficient half over any range of wire types |
| Copies.ParallelAlike | cacti65/Ucache.cc:637-673 | whatever the number of workers, the merged lists agree in keys and metrics, entry by entry |
| Copies.ParallelIsCopyList | cacti65/Ucache.cc:151-209 | of every key in any merged list the first entry carries the first wire type, the last the last, and all have the same metrics |
| Copies.OnePerWireType | cacti65/Ucache.cc:151-209 | without equal keys at two indices, every accepted partition is listed exactly once per wire type, in order, with the metrics of its partition |
| Copies.ThreadCountMatters | cacti65/Ucache.cc:605-673 | the characterization for each n over any range: at most one wire type, or every key falls to one worker |
| DramTags.AcceptedIgnoresMux | cacti65/parameter.cc:221-478 | for a set-associative DRAM tag array no check looks at the column multiplexing |
| DramTags.SharesExactly | cacti65/parameter.cc:221-363 | some key falls to two of n workers exactly for such an array, when n is at least two, several multiplexings are searched and some partition is accepted |
| DramTags.ThreadCountByInput | cacti65/Ucache.cc:605-673 | the guard, for each n: n workers leave the list of one exactly when n is one or the array is not of that kind |
| DramTags.DramTagsReorder | cacti65/Ucache.cc:605-643 | an input whose tag list, within the program's own loop bounds, differs from that of one thread for every number of threads from two on, whatever the circuit computes |
| DramTags.DramTagsAreChecked | cacti65/io.cc:832-1005 | that input passes the input check |
| Workers.Heap.Delete | cacti65/Ucache.cc:230-233 | only a live array can be freed, once |
| Workers.Consider | cacti65/Ucache.cc:163-209 | one pass of the loop body keeps an accepted array, its label and its minima, or leaves the lists as they were, and owns exactly what it holds |
| Workers.CalcTime | cacti65/Ucache.cc:107-236 | the five nested loops visit exactly the worker's points in order; at the end the lists are the accepted arrays, the blanks are freed and nothing else is live |
| Workers.StepThread | cacti65/Ucache.cc:107-236 | one atomic step of a thread keeps its own invariant and its share of the live arrays |
| Workers.ScheduleOne | cacti65/Ucache.cc:629-635 | whichever thread is picked, the others are left as they were and every array stays owned once |
| Workers.RunThreads | cacti65/Ucache.cc:624-635 | every interleaving of the threads terminates with each thread holding what it would hold alone |
| Select.SelectWeighted | cacti65/Ucache.cc:419-472 | the erasing walk returns the first least-cost feasible entry of the original list among all but the overlooked one |
| Select.SelectByProduct | cacti65/Ucache.cc:421-443 | the product modes return the first least-cost entry of the whole list, a minimizer of the plain product |
| Select.FindOptimalUca | cacti65/Ucache.cc:401-475 | the choice as a function of mode, minima, objective and the list; an empty list fails |
| Select.ExactOptimality | cacti65/Ucache.cc:462-470 | the walk finds the true first optimum if and only if that is not the overlooked entry |
| Select.NothingOverlooked | cacti65/Ucache.cc:462-470 | nothing is overlooked when the entry after the improving prefix is feasible or the last |
| Select.OverlookedWitness | cacti65/Ucache.cc:401-472 | three organizations, scored under their own minima and the shipped weights, of which the walk misses the cheapest feasible one |
| Select.ProductOptimal | cacti65/Ucache.cc:421-443 | in the product modes the result is the first global minimizer of the unnormalized product |
| Filters.FilterDataArr | cacti65/Ucache.cc:538-562 | erasing while iterating leaves exactly the near arrays in order and frees exactly the others |
| Filters.FarExactly | cacti65/Ucache.cc:554-555 | an array is dropped exactly when its delay and its energy are both more than one and a half times the least |
| Filters.SurvivorsExactly | cacti65/Ucache.cc:548-561 | arrays that are not dropped are left in their order |
| Filters.NeverEmpties | cacti65/Ucache.cc:554-560 | with minima taken over the same list a non-empty list is emptied only if every array exceeds one and a half times BIGNUM |
| Filters.FilterTagArr | cacti65/Ucache.cc:483-534 | leaves exactly the least-cost array within the deviations, the one nearest the back on ties, and frees the rest; fails exactly when none is below BIGNUM |
| Solve.Gather | cacti65/Ucache.cc:637-643 | the joining loop produces the merged lists and holds every array of every thread once |
| Solve.MinimaOfMerged | cacti65/Ucache.cc:681-685 | folding per-worker minima gives the componentwise minimum over the merged list |
| Solve.Search | cacti65/Ucache.cc:617-674 | one search with n threads under any schedule yields the merged lists of n workers, and nothing else stays allocated |
| Solve.FreeOthers | cacti65/Ucache.cc:753-760 | exactly the data arrays other than the chosen one are freed |
| Solve.FiguredExactly | cacti65/cacti_interface.cc:80-172 | the figures of an organization by its arrays, in each access mode: which delays add and which compete, energy and leakage added, the longer cycle, and the two arrays side by side |
| Solve.ChooseOrganization | cacti65/Ucache.cc:701-760 | combine, minimize, choose and free: the chosen organization, its figures as its arrays give them, and what stays live |
| Solve.Solve | cacti65/Ucache.cc:578-772 | for every circuit, problem, thread count and interleaving: the verdict meets its specification and exactly the chosen data and tag arrays stay allocated |
| Solve.OutcomeUnique | cacti65/Ucache.cc:578-772 | that specification determines the verdict, so the result does not depend on the schedule |
| WireTypes.SolvePicksTrueOptimum | cacti65/Ucache.cc:419-472 | over several wire types the weighted search is exactly optimal, and its data array carries the first wire type |
| WireTypes.TagCarriesLastWire | cacti65/Ucache.cc:497-533 | the tag array kept carries the last wire type |
| WireTypes.SolvedOptimally | cacti65/Ucache.cc:578-772 | whole run: a solved problem is solved by the first least-cost organization among all combined, and both wire types are fixed in advance |
| WireTypes.OutcomeThreadIndependent | cacti65/Ucache.cc:605-772 | what a run delivers does not depend on the number of threads, for DRAM tags too |
| RunOptimality.OptimalExactly | cacti65/Ucache.cc:578-772 | whole run, any wire types: it delivers the first least-cost organization it combined if and only if that one is not overlooked, or a copy of it comes next |
| RunOptimality.DeliveredIsPreferred | cacti65/Ucache.cc:578-772 | whole run, in figures: the organization delivered is within the deviations, and no other within them is cheaper by the weights, the overlooked one excepted |
| MissedArrays.MissedExactly | cacti65/Ucache.cc:401-772 | over one wire type some circuit of the geometry makes every run, whatever the number of threads, report that nothing meets the criteria, although the second array it combined does, if and only if two partitions are accepted |
| MissedArrays.NeverMissed | cacti65/Ucache.cc:401-772 | with fewer than two accepted partitions a run over one wire type delivers the best it combined, in every mode and for caches too |
| MissedArrays.KilobyteMissed | cacti65/Ucache.cc:462-470 | it happens for a 1 KB memory, within the program's loop bounds |
| MissedArrays.KilobyteIsChecked | cacti65/io.cc:832-1005 | that input passes the input check and starts its data search at one |
| Delivered.KeptIsPower | cacti65/Ucache.cc:149-158 | every array any worker keeps comes from a partition that is a power of two in every parameter and was accepted with the array's key |
| Delivered.DeliveredGeometry | cacti65/Ucache.cc:578-772 | whatever set-associative data array a run delivers holds exactly the capacity, meets the mat's assertions, and has address bits for every bit under the exact condition |
| FullyAssociative.EntriesExact | cacti65/parameter.cc:263-268 | an accepted fully associative array has, in each bank, a row for every line of the capacity down to whole rows of subarrays; a row per line, or per line's bytes, exactly under a divisibility test and one bank |
| FullyAssociative.EntryIsTagWide | cacti65/parameter.cc:263-268 | every one of its rows is as wide as a tag |
| FullyAssociative.DeliveredAsTags | cacti65/Ucache.cc:180-210 | whatever data array a run delivers for a fully associative cache is laid out so, since the search passes the tag flag for both arrays |
| FullyAssociative.NoArraysWithoutTags | cacti65/Ucache.cc:605-672 | a fully associative memory that is no cache ends with no data arrays, and in no other way |
| FullyAssociative.TwoBanksDouble | cacti65/parameter.cc:263-268 | an accepted array of two banks with 32 rows for 16 lines |
| FullyAssociative.TwoBanksAreChecked | cacti65/io.cc:832-1005 | that cache passes the input check |
| Repeater.DelayOptimum | cacti65/wire.cc:476-493 | the computed spacing and size minimize the function's own delay over all positive spacings and sizes, and are the only minimizers |
| Repeater.LengthLinear | cacti65/wire.cc:488-507 | delay, dynamic energy and leakage are proportional to wire length |
| Repeater.DelaySplits | cacti65/wire.cc:488-493 | the delay separates into a part in the spacing and a part in the size |
| Wire.GridMembers | cacti65/wire.cc:523-546 | the candidates are exactly the spacings sp, sp+100, ... below 4sp with the sizes si, si-1, ... above one |
| Wire.GridStart | cacti65/wire.cc:523-546 | the delay-optimal wire is the first candidate when its size exceeds one; otherwise there are none |
| Wire.ModelsAgree | cacti65/wire.cc:646-651 | candidate delay and optimum delay agree exactly when input and output capacitance do |
| Wire.FirstIsFastest | cacti65/wire.cc:513-547 | the wire recorded as delay optimal is the fastest candidate exactly when no smaller size is tried or one size less does not win |
| Wire.DrainHeavyIsFasterSmaller | cacti65/wire.cc:513-547 | a device whose second candidate is faster than the wire recorded as delay optimal |
| Wire.CascadeBest | cacti65/wire.cc:567-607 | the first best of a filtered list is the first best of the list it came from |
| Wire.CascadeClass | cacti65/wire.cc:567-607 | a class searched in the list left by looser ones is the class an independent search would find |
| Wire.ClassAssigned | cacti65/wire.cc:567-607 | with the delay optimum among the candidates each class is assigned, within its allowance, cheapest there, and no dearer than the optimum |
| Wire.LooserIsCheaper | cacti65/wire.cc:567-607 | relative cost falls from the 5 to the 30 percent class |
| Wire.Wire.DelayOptimalWire | cacti65/wire.cc:453-507 | fields set to the optimum; the delay is at most that of any spacing and size |
| Wire.Wire.SearchClass | cacti65/wire.cc:569-605 | one erasing pass leaves the candidates within the allowance and assigns their first cheapest |
| Wire.Wire.UpdateFullswing | cacti65/wire.cc:556-608 | the four cascaded passes assign what four independent searches of the original list would |
| Wire.Wire.LayOutCandidates | cacti65/wire.cc:523-546 | the two loops lay out the grid and record its first entry as the delay optimum |
| Wire.Wire.InitWire | cacti65/wire.cc:513-548 | initialization assigns all four classes whenever the optimal size exceeds one, and leaves everything unassigned otherwise |
| Wire.Wire.CalculateWireStats | cacti65/wire.cc:125-191 | a full-swing wire's figures and repeater area are its length times those of one metre of its class; after initialization a 5, 10, 20 or 30 percent wire is that much slower at most than the first candidate and the cheapest candidate within that bound |
| Wire.WireWithin | cacti65/wire.cc:142-189 | the same on the figures of the wire: its bound, and no candidate within it would cost less over the same length |
| NucaGrid.SumGrid | cacti65/nuca.cc:295-313 | the nested loops sum hops and latency bank by bank; hops are horizontal plus vertical hops |
| NucaGrid.AverageHops | cacti65/nuca.cc:295-317 | average hops are (rows + columns)/2, horizontal (columns - 1)/2, vertical (rows + 1)/2 |
| NucaGrid.AverageLatency | cacti65/nuca.cc:295-314 | average latency is (ver(rows - 1) + hor(columns - 1))/2 |
| NucaGrid.DivisorsSpec | cacti65/nuca.cc:283-285 | the columns visited are exactly the divisors of the bank count |
| NucaGrid.DividesExactly | cacti65/nuca.cc:283-285 | a column count is a divisor when some number of rows of it make up all banks |
| NucaGrid.DivisorsIncrease | cacti65/nuca.cc:283-285 | each once, in increasing order |
| NucaGrid.SearchGrid | cacti65/nuca.cc:283-355 | the skip-ahead loop ends and keeps the first arrangement with the least access latency below the starting bound, with all its figures; none is faster |
| NucaGrid.SquarestGrid | cacti65/nuca.cc:314-350 | with equal hop latencies it keeps the least rows plus columns, no more columns than rows, and the largest divisor up to the square root |
| Nuca.CyclesCover | cacti65/nuca.cc:112-122 | the cycle count is the least whose usable part covers the latency |
| Nuca.SelectNuca | cacti65/nuca.cc:515-575 | the weighted walk returns the first least-cost feasible entry, the second passed over exactly when the first is infeasible |
| Nuca.SelectNucaByProduct | cacti65/nuca.cc:531-547 | the product modes walk the whole list and return a minimizer of the plain product |
| Nuca.FindOptimalNuca | cacti65/nuca.cc:498-577 | the choice as a function of mode, minima, objective and the list |
| Nuca.NucaExactOptimality | cacti65/nuca.cc:569-573 | the walk finds the true first optimum if and only if that is not the second entry behind an infeasible first |
| Nuca.SecondPassedOver | cacti65/nuca.cc:569-573 | three organizations of which the walk misses the cheapest feasible one |
| Nuca.NucaProductOptimal | cacti65/nuca.cc:531-547 | in the product modes the result is the first global minimizer of the unnormalized product |
| SimNuca.BuildNucaList | cacti65/nuca.cc:246-409 | the three loops leave one entry per bank count, wire type and router in order, each from its own grid search, and the minima over all |
| SimNuca.BankCounts | cacti65/nuca.cc:246-254 | with power-of-two capacities every combination of an iteration has its bank count, which doubles from one iteration to the next |
| SimNuca.BankCountReached | cacti65/nuca.cc:246-254 | and every iteration is there |
| SimNuca.GridOfEntry | cacti65/nuca.cc:340-401 | an entry's grid holds exactly its banks if and only if some search up to its own beat its starting bound and the latest that did was for as many banks |
| SimNuca.FirstGridIsEmpty | cacti65/nuca.cc:340-401 | a study whose first entry is a grid of no banks, since the first bound is the tightest |
| Htree.Htree.Descend | cacti65/htree2.cc:209-378 | the descent ends on h + v, never meets a horizontal link in its last branch, totals delay, energy, leakage and width, and passes exactly the expected gates with the expected sizes |
| Htree.InterbankTotals | cacti65/htree2.cc:273-364 | between banks: delay and energy are rate times twice len(1 - 2^-h) + ht(1 - 2^-v) however the levels interleave; paired vertical links leak twice |
| Htree.BankTotals | cacti65/htree2.cc:273-378 | inside a bank: h + v gates, width doubled v times, and the closed form of leakage over doubling widths and halving lengths |
| Htree.LeafWidth | cacti65/htree2.cc:219-368 | the width at the leaves is the initial width times half the number of subarray rows |
| Htree.WidthTimesLength | cacti65/htree2.cc:290-322 | doubling the width while halving the length leaves their product unchanged |
| GateChain.SizingShape | cacti65/component.cc:207-233 | the stage count is even or the minimum asked for, and the last width lies within the limits, in both branches |
| GateChain.LogicalEffort | cacti65/component.cc:195-242 | the two arrays are filled backwards at a constant p/n ratio from the last stage, stage 0 untouched |
| GateChain.TruncateTowardsZero | cacti65/component.cc:207 | converting the logarithm to an integer rounds towards zero |
| GateChain.ChainShape | cacti65/component.cc:235-239 | adjacent stages differ by at most the fanout, and sizes grow towards the load and stay within limits exactly when the fanout is at least one or nothing is filled in |
| GateChain.ChainFromEffort | cacti65/component.cc:213-239 | the same in terms of the effort in the branch taken |
| XmlLayout.SplitOfJoin | mcpat/XML_Parse.cc:170-187 | splitting inverts joining comma-free fields |
| XmlLayout.JoinOfSplit | mcpat/XML_Parse.cc:170-187 | joining inverts splitting, for every string |
| XmlLayout.FieldsCommaFree | mcpat/XML_Parse.cc:170-187 | no field contains a comma |
| XmlLayout.ListReader.ReadList | mcpat/XML_Parse.cc:168-188 | the character loop converts every field in order into the destination and leaves the shared buffer empty |
| XmlLayout.ReadSection | mcpat/XML_Parse.cc:614-727 | a section reads its children consecutively from the cursor, or stops the program exactly when one is missing or of another kind |
| XmlLayout.ReadNocs | mcpat/XML_Parse.cc:1156-1275 | a network entry of another kind is neither stored nor passed over and does not stop the program |
| XmlLayout.ReadUnits | mcpat/XML_Parse.cc:1314-1420 | the four units are read behind the sections, or all at the first child when there is a single component |
| XmlLayout.Parse | mcpat/XML_Parse.cc:124-1420 | the description is read if and only if every child is where the cursors look for it, and then as laid out |
| XmlLayout.ReadByName | mcpat/XML_Parse.cc:124-1420 | a description that is read has as many entries of each section as it gives, each a component with the name or identifier of its section, and the four units in order |
| XmlLayout.EachChildOnce | mcpat/XML_Parse.cc:128-1420 | the children are read consecutively, each once, with the units right behind, if and only if every network matches and there is more than one component |
| XmlLayout.LoneCore | mcpat/XML_Parse.cc:1314-1320 | a lone core would have to be memory controller, network interface, PCIe and flash controller as well |

## Left out

- Device physics and technology tables, and everything in mat, subarray, bank and uca that computes delay, power and
  area from them: formulas over constants, represented by the circuit oracle and its positive metrics.
- Floating-point rounding: reals instead of doubles. Unsigned wrap-around is modelled for zero heterogeneous cores and
  for the tag columns; products of more than 32 bits and conversions beyond the range of int are not.
- The forced-configuration mode of the search, and main-memory mode in `Solve`: they add cases without changing the search.
- WireTypes.OutcomeThreadIndependent: assumes that partitions accepted with equal keys have equal metrics. In the
  program the column multiplexing is read at cacti65/parameter.cc:221, 231 and 363 only and is not stored, so what is
  computed from an accepted partition is computed from the fields of its key.
- RunOptimality.OptimalExactly: the same assumption.
- Solve.Solve: a search starts at a positive Nspd (`Io.DataSearchEnds` says which checked inputs do); metrics of accepted
  arrays are positive, so the replacement of a zero leakage minimum is never taken; what stays allocated is stated when
  an organization is chosen, since the program exits otherwise.
- Conservation.CapacityConserved: data arrays that are not fully associative; for those that are, `FullyAssociative`
  says what is laid out instead. Tag arrays hold tags, not the capacity.
- Conservation.AddressBitsConserved: cache and RAM mode; main memory counts address bits by another rule.
- Wire.Wire.CalculateWireStats: low-swing wires, whose figures are not linear in length; the area of one repeater is a
  parameter.
- SimNuca.FirstGridIsEmpty: the study is one of ten million bank cycles; the bounds of later searches are far looser.
- Htree.Htree.Descend: the initial spans of a tree are inputs, and one full-swing wire rate serves all links; the two
  directions differ only in the gate, which is a parameter.
- GateChain.LogicalEffort: the number of stages fits the arrays, as the program itself asserts after writing them.
- Nuca.FindOptimalNuca: minima are positive; the contention table is one number per entry, and entries erased from the
  list are not freed, as in the program.
- SimNuca.BuildNucaList: the number of iterations, the solved banks, wires and routers are inputs.
- XmlLayout.ListReader.ReadList: fields are shorter than the 60-character buffer and lists fit their fixed arrays.
- Linked nodes of the lists: a list is a sequence whose positions form a ring, not a heap of nodes.
- pthread, configuration and command-line parsing, printing, file reading and the XML library; exits are failure results.
- The rest of McPAT (arrays, networks, controllers) and the crossbar, router and arbiter models: scaling by constants.
