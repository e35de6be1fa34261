# Verified models of the coursework's algorithms

The repository is coursework on top of the gem5 simulator. Its hard logic sits in about a dozen
small pieces. Each is modelled here in the form it has in the source (classes, arrays and loops
where the source updates state, functions where it computes) and proved against independent
statements of what it is for. `dafny verify dfyconfig.toml` checks everything.

| file | what it models | main results |
|---|---|---|
| Queens.dfy | the backtracking search of hw1/queens.c with its owner arrays | exact count, each solution once, in lexicographic order; first-only mode stops at the minimum |
| PipeView.dfy | the bounded reorder queue of o3-pipeview.py | the output is sorted if and only if every instruction arrives in time; the documented bound suffices and is tight, and is necessary exactly if the thresholds coincide |
| Bytes.dfy, Rram.dfy, AiChip.dfy | byte memories, the RRAM array and the operation sequencer of hw3/binnet_modified | the objects refine a step function on values, cycle counts included |
| BinaryNet.dfy, Packing.dfy | the three-layer network, the packed weight table and load_weights | the packed array gives the same classes as separate loading and as the direct program of hw3/binnet, for every sequence of images; the class is the first of the largest scores; exact cycle totals |
| RealNetwork.dfy | the network in real numbers | on floats that round each operation once, the class is that of the network with real scores and weights -1, 0 and 1 |
| VirtualDevice.dfy, Peripheral.dfy | the memory-mapped device and the host driver | invariants of every reachable state; under every interleaving no request is lost and the device executes the sequential program; progress |
| BinnetHost.dfy | the host's main program on that device | end to end: the bytes read back are the classes of the images |
| BinnetTiming.dfy | the loop body of main on the driver and device objects | the class, and the exact simulated time until it can be read |
| Fp80.dfy, Fp80Values.dfy | fp64/fp80 conversion by bit manipulation | round trip, order embedding, and exactly when decoding truncates as documented, on every machine and on a given one |
| PortBinding.dfy | bind_ports of read_config.py | the final length check is exact; the pass succeeds if and only if some choice of turns exists; pairs are made in the order of names |
| Graph.dfy, GridTopology.dfy, ClusterTopology.dfy | Torus.py, Mesh.py and Cluster.py | exact shortest distances for all sizes; the weights give XY routing; every cluster nesting gives a tree with its controllers at their own router; gap-free numbering |
| IpChecksum.dfy | ip_cksum_add and ip_cksum_carry | Duff's device, label by label, is the plain sum; a stored checksum verifies; exactly which one-word changes are missed; independence of byte order |
| Conv.dfy | op_conv, op_fc, op_padding and sparsify of hw3/simplecnn_modified | zero skipping is exact and the products computed are counted; padding plus convolution is "same" convolution; pruning never costs cycles |
| SortIncludes.dfy, IncludeMatcher.dfy | sort_includes.py at line level, and its regular expressions | sorting twice equals sorting once; nothing is lost, invented or moved; the blocks come in order with single blank lines between them; the kind of every include; exactly when directories come before files |
| ElfRefs.dfy | descriptor lifetimes in libelf (elf_begin, elf_end) | in every state exactly the held descriptors and the archives around them exist; members go before archives |
| DateRanges.dfy | datestr and process_dates of find_copyrights.py | the unique shortest list of ranges; exactly when the round trip holds |

Conventions. A method that updates state says what the new state is through a function or
predicate on values, and the lemmas are about that function. Floats of the accelerator are 32-bit
patterns with an uninterpreted arithmetic `Rram.Arith`; the only law used, `Rram.Lawful`, is that
adding or subtracting a product with a zero weight leaves an accumulator alone. IEEE 754 floats
meet it except for the negative zero, which a sum that starts from zero never becomes
(`Rram.Saturating` exhibits an integer arithmetic that meets it); batch
normalisation is an arbitrary function of value, mean, variance, weight and bias. Only
RealNetwork.dfy looks into the arithmetic: `RealNetwork.Numbers` says that each operation is the real
one, rounded, on finite floats, with `round` and the square root left open but for the exactness of
small integers, as IEEE 754 has it (`RealNetwork.RoundedDown` shows that this can be met). The classes
MemHub, Memory, AIChip's header and gem5's event queue are not part of this model: memories are
byte arrays at the offsets that op_init gives them, and one scheduled event eventually fires.

Where the code and its documentation disagree, the model follows the code:

- o3-pipeview.py says the queue is sorted when it *reaches* the upper threshold; the code waits
  until it exceeds it (`PipeView.ReachedIsHeld`). "Otherwise they will appear out of order" is an equivalence exactly if the
  two thresholds coincide (`PipeView.DocumentedOtherwise`); in general a stream displaced further
  may come out sorted (`PipeView.DisorderedButSorted`), and `PipeView.SortedIffInTime` gives the
  exact condition.
- include/fputils/fp80.h documents the conversions as completely lossless (to 80 bits, line 243) and
  always truncating (to 64 bits, line 207).
  The encoder halves every subnormal (`Fp80Values.EncodeValue`), the decoder undoes exactly that, and so
  well-formed 80-bit numbers just below the 64-bit normal range do not truncate
  (`Fp80Values.TruncationExact`, `Fp80Values.BorderDrops`). C leaves a right shift of a 64-bit word by 64 or
  more places undefined, and the decoder does shift tiny numbers that far; what a machine makes of
  it is the parameter `over` of the model. `Fp80Values.TruncationPortable` says which numbers truncate on
  every machine, `Fp80Values.MaskedCountFails` shows one that does not on a machine that masks the count.
  fp80_classify calls one pattern normal for which fp80_isnormal answers no
  (`Fp80.ClassifyAgrees`).
- read_config.py raises "can't be ordered" also for lists that could be ordered, only not by its
  sorted pass (`PortBinding.OrderableButRefused`), and its comment promises that exactly one of
  each two directions is bindable, which holds precisely under the condition of
  `PortBinding.CheckExact`.
- sort_includes.py announces "directories before files", and defines include_key for it, but the
  blocks are sorted as plain strings and include_key is not used. `<stdio.h>` is written before
  `<sys/types.h>` (`IncludeMatcher.FileBeforeDirectory`); a block has its directories first if and
  only if the text behind the delimiter of each directory is below that of each file
  (`IncludeMatcher.DirectoriesFirstIff`).
- find_copyrights.py loses years if a range of years has an end that is not a four-digit number
  (`DateRanges.RoundTrip`), such as 999 and 1000 (`DateRanges.YearsLost`).
- op_fc of simplecnn writes one output too many when the length of its range is 1 modulo 4, and
  leaves the last one out when it is 3 modulo 4 (`Conv.WrittenExactly`).
- load_weight of the unmodified binnet program copies 1024 bytes, not entries, of each parameter
  row. That is enough exactly for layers of up to 256 rows (`Packing.DirectLoadExact`), which all
  three layers are.

## Model

| member | source | states |
|---|---|---|
| Queens.Sound | hw1/queens.c:342-363 | every placement the search meets below a partial placement is a complete non-attacking one that extends it |
| Queens.Complete | hw1/queens.c:342-363 | every complete non-attacking placement that extends the partial one is met |
| Queens.InLexOrder | hw1/queens.c:343-353 | the placements are met in strictly increasing lexicographic order, so none twice |
| Queens.SolutionCount | hw1/queens.c:324-364 | the number of placements met is the cardinality of the set of solutions, which exists |
| Queens.FirstOnly | hw1/queens.c:334-337 | the first placement met is the lexicographic minimum of all solutions; there is none exactly if the board has no solution |
| Queens.ConflictTest | hw1/queens.c:354-355 | the three owner comparisons hold if and only if no queen placed on an earlier rank attacks the square, and then all three entries are EMPTY |
| Queens.AttackIsQueenMove | hw1/queens.c:354-355 | two queens attack each other exactly if they are on one file, or as many files apart as ranks |
| Queens.SmallBoards | hw1/queens.c:324-364 | two and three queens have no solution, and 1, 3, 0, 2 is one of four |
| Queens.PlaceOwned | hw1/queens.c:357-358 | marking a free square keeps the invariant that exactly the lines of placed queens are owned, each by its rank |
| Queens.CountedExact | hw1/queens.c:335 | the unsigned counter is exact up to multiples of its range, and exact while the count fits |
| Queens.Search.constructor | hw1/queens.c:265-273 | the initial arrays are all EMPTY and nothing is placed or counted |
| Queens.Search.IsFree | hw1/queens.c:354-355 | the test on the real arrays is the test of attack |
| Queens.Search.Place | hw1/queens.c:357-358 | placing a queen extends the placement the arrays stand for |
| Queens.Search.Find | hw1/queens.c:324-364 | from any partial placement: the solutions below it are counted and printed in order, the owner arrays are restored, and in first-only mode the program leaves with the first of them on the board |
| Queens.Search.Try | hw1/queens.c:354-361 | one file of one rank: mark, recurse, unmark |
| Queens.Run | hw1/queens.c:265-283 | over all sizes: the reported count is the number of solutions (modulo the counter's range), the boards are all solutions in increasing order, first-only mode reports the minimum; sizes out of range are refused |
| PipeView.SortSorts | hw3/Gem5_Homework/gem5/util/o3-pipeview.py:154-155 | the sort by sequence number is a sorted permutation |
| PipeView.FlushConserves | hw3/Gem5_Homework/gem5/util/o3-pipeview.py:167-171 | a flush loses and invents nothing, only appends to what was popped, and leaves at most the given number |
| PipeView.QueueLength | hw3/Gem5_Homework/gem5/util/o3-pipeview.py:159-164 | after any number of arrivals the queue is not longer than max_threshold, and its length depends on the number of arrivals alone |
| PipeView.ReachedIsHeld | hw3/Gem5_Homework/gem5/util/o3-pipeview.py:163-164 | a queue that has reached max_threshold is not flushed; the next arrival flushes it down to min_threshold |
| PipeView.RunConserves | hw3/Gem5_Homework/gem5/util/o3-pipeview.py:159-171 | over a whole run every instruction is popped exactly as often as it arrived |
| PipeView.StaysInOrder | hw3/Gem5_Homework/gem5/util/o3-pipeview.py:159-171 | while all arrivals are in time, popped part and sorted queue together are the sorted stream so far |
| PipeView.InTimeMeans | hw3/Gem5_Homework/gem5/util/o3-pipeview.py:163-164 | an arrival sorts behind everything already popped exactly when at most min_threshold larger ones had arrived at the last flush |
| PipeView.LateSpoils | hw3/Gem5_Homework/gem5/util/o3-pipeview.py:167-171 | one arrival that belongs before something popped makes the output unsorted for good |
| PipeView.SortedIffInTime | hw3/Gem5_Homework/gem5/util/o3-pipeview.py:51-52 | the whole output is the sorted stream if and only if every instruction is in time |
| PipeView.BoundedDisorderSorts | hw3/Gem5_Homework/gem5/util/o3-pipeview.py:47-52 | if no instruction has more than min_threshold larger ones before it, the output is sorted |
| PipeView.DisorderBoundIsTight | hw3/Gem5_Homework/gem5/util/o3-pipeview.py:51-52 | for all thresholds there is a stream that exceeds the bound by one place and comes out unsorted |
| PipeView.DisorderedButSorted | hw3/Gem5_Homework/gem5/util/o3-pipeview.py:51-52 | whenever min_threshold is below max_threshold there is a stream that exceeds the bound and still comes out sorted |
| PipeView.OneThreshold | hw3/Gem5_Homework/gem5/util/o3-pipeview.py:51-52 | with equal thresholds the output is sorted if and only if the bound is kept |
| PipeView.DocumentedOtherwise | hw3/Gem5_Homework/gem5/util/o3-pipeview.py:51-52 | the documented sentence is an equivalence over all streams if and only if the thresholds coincide |
| PipeView.FilterMeans | hw3/Gem5_Homework/gem5/util/o3-pipeview.py:172-187 | of any list the filter keeps exactly the instructions within the limits that are set, committed ones if only those are asked for, each as often as it occurs |
| PipeView.KeepSorted | hw3/Gem5_Homework/gem5/util/o3-pipeview.py:167-188 | filtering keeps a sorted list sorted and adds nothing |
| PipeView.Viewer.PrintInsts | hw3/Gem5_Homework/gem5/util/o3-pipeview.py:167-188 | the loop over the global queue is the flush; whatever is printed lies within every limit that is set and was committed if only committed instructions are asked for, and whatever meets these is printed as often as it was popped |
| PipeView.Viewer.QueueInst | hw3/Gem5_Homework/gem5/util/o3-pipeview.py:159-164 | appending and flushing above the threshold; the queue stays within max_threshold |
| PipeView.Viewer.ProcessTrace | hw3/Gem5_Homework/gem5/util/o3-pipeview.py:139-149 | what is printed for a trace: the instructions that meet the limits, each as often as it came, in the order of the run, which is the sorted order under the documented assumption; without limits, the whole run |
| Bytes.FloatsAt | hw3/binnet_modified/vdev/binnet/simd.h:37-40 | a float stored in a byte memory is read back bit for bit |
| Rram.RramArray.LoadWeight | hw3/binnet_modified/vdev/binnet/simd.h:14-42 | the array afterwards holds the signs of the weights in memory as two zero-one matrices and the four parameter rows; 100000 cycles |
| Rram.RramArray.RowValue | hw3/binnet_modified/vdev/binnet/simd.h:48-56 | the two loops compute the positive and then the negative row sum, in the order of the source |
| Rram.RramArray.Calculate | hw3/binnet_modified/vdev/binnet/simd.h:44-61 | every output float is the batch-normalised row value of the inputs; 100 cycles |
| Rram.RramArray.Sign | hw3/binnet_modified/vdev/binnet/simd.h:63-73 | each output byte is the sign of its float, other bytes stay; 1 cycle |
| AiChip.RunProper | hw3/binnet_modified/vdev/binnet/ai_chip.cpp:3-61 | a step keeps the memory sizes, the parameters, the mode and the counter, and finishes exactly at operation 7 |
| AiChip.ArgMaxFirst | hw3/binnet_modified/vdev/binnet/core.cpp:75 | on floats of which none is a NaN, std::max_element finds the first of the largest |
| AiChip.Device.OpInput | hw3/binnet_modified/vdev/binnet/core.cpp:60-70 | the first 784 bytes become the binarised image, the others stay |
| AiChip.Device.LoadIf | hw3/binnet_modified/vdev/binnet/core.cpp:101-108 | the array is loaded with the parameters of the layer if asked, and untouched otherwise |
| AiChip.Device.OpFcCalculate | hw3/binnet_modified/vdev/binnet/core.cpp:79-112 | the output memory is computed from the input memory with the array as loaded or as it was |
| AiChip.Device.OpSign | hw3/binnet_modified/vdev/binnet/core.cpp:114-128 | the signs of all 1024 floats go to the other memory |
| AiChip.Device.OpOutput | hw3/binnet_modified/vdev/binnet/core.cpp:72-77 | the byte stored is the index of the first largest of the ten floats: none is larger, and those before it are smaller |
| AiChip.Device.Run | hw3/binnet_modified/vdev/binnet/ai_chip.cpp:3-61 | the object takes exactly the step of its abstract state and reports its ticks |
| BinaryNet.AddedEmbedded | hw3/binnet_modified/vdev/binnet/simd.h:49-52 | a row that is zero outside a block sums only the inputs of the block, whatever the other inputs are |
| BinaryNet.BlockOutput | hw3/binnet_modified/binnet/main.cpp:47-49 | a row of a layer's block computes that layer's output from the block's columns of the input alone |
| BinaryNet.FirstLayer | hw3/binnet_modified/vdev/binnet/ai_chip.cpp:12-29 | after operations 1 to 3 the signs of the first layer lie where the second one reads |
| BinaryNet.LaterLayers | hw3/binnet_modified/vdev/binnet/ai_chip.cpp:30-50 | after operations 4 to 6 the outputs of the third layer lie where the classes are read |
| BinaryNet.ClassIsLargest | hw3/binnet_modified/vdev/binnet/core.cpp:72-77 | no other class has a larger output of the last layer than the class of the image, and those before it have smaller ones |
| BinaryNet.ImageClassified | hw3/binnet_modified/vdev/binnet/ai_chip.cpp:8-58 | one image, from any stale memories: the byte in mem1 is the class of the image, the first of the classes with the largest output of the last layer, at 322 cycles plus 100000 for each load, and the chip is ready for the next |
| BinaryNet.ImagesClassified | hw3/binnet_modified/vdev/binnet/ai_chip.cpp:12-58 | any sequence of images: each class depends on its image and the weights only; 322 n cycles plus one load of 100000 with load_once, 300322 n without |
| BinaryNet.ModesAgree | hw3/binnet_modified/binnet/main.cpp:255-342 | packed and separate loading give the same classes for every sequence of images |
| BinaryNet.DirectAgrees | hw3/binnet/main.cpp:181-207 | with arrays that carry the three layers at their origins, the loop of the unmodified program finds the same class, whatever its buffers hold behind the data |
| Packing.OverlayKeeps | hw3/binnet_modified/binnet/main.cpp:184-230 | copying a block into other rows leaves a layer already packed as it is |
| Packing.PackedContains | hw3/binnet_modified/binnet/main.cpp:184-230 | the packed table contains all three layers, zero elsewhere in their rows |
| Packing.LoadedCarries | hw3/binnet_modified/vdev/binnet/simd.h:22-40 | a table that contains a layer loads into an array that carries it |
| Packing.StoredRead | hw3/binnet_modified/vdev/binnet/core.cpp:12-44 | the chip reads back exactly the table that main wrote, for each of the three layers: order and offsets of both sides agree |
| Packing.SentPrepares | hw3/binnet_modified/binnet/main.cpp:252-342 | after the tables of its mode are sent, the chip is ready to classify, whatever its array and activation memories contain |
| Packing.Table.Fill | hw3/binnet_modified/binnet/main.cpp:53-59 | reading a layer's file fills its block and its entries and nothing else |
| Packing.Table.CopyBlock | hw3/binnet_modified/binnet/main.cpp:184-214 | the copy loops overlay the packed table with the layer |
| Packing.Pack | hw3/binnet_modified/binnet/main.cpp:180-230 | the three copies produce the packed table |
| Packing.LoadWeights | hw3/binnet_modified/binnet/main.cpp:42-231 | load_weights leaves three separate tables and the packed one |
| Packing.DirectLoadExact | hw3/binnet/rram_array.h:18-36 | the unmodified load_weight, which copies 256 entries of each parameter row, carries a layer over every earlier array if and only if it has at most 256 rows |
| Packing.DirectProgram | hw3/binnet/main.cpp:181-207 | the unmodified loop with its three loads and its tables gives the class of the image, whatever the image before has left |
| RealNetwork.RoundedDown | hw3/binnet_modified/vdev/binnet/simd.h:48-59 | the laws assumed of floats, those of the array and those of rounding, can be met together |
| RealNetwork.OutputValue | hw3/binnet_modified/vdev/binnet/simd.h:48-59 | the two loops and the batch normalisation yield (sum - mean) / sqrt(variance + 1e-5) * scale + bias, each operation rounded, where the sum adds each input with the sign of its weight; its sign is the real sign |
| RealNetwork.LayerValue | hw3/binnet_modified/vdev/binnet/simd.h:63-73 | the signs of a layer are those of its real outputs |
| RealNetwork.RealClass | hw3/binnet_modified/vdev/binnet/core.cpp:60-77 | the class of an image is the first of those with the largest score of the network in real numbers, from the image in black and white on |
| RealNetwork.RealRun | hw3/binnet_modified/binnet/main.cpp:352-367 | under any interleaving the host reads that class for every image |
| VirtualDevice.ConsistentMeans | hw3/binnet_modified/vdev/vdev.cc:142-179 | in a consistent state exactly one of WORK and READY is set, WORK exactly while an interrupt is pending, and FINISH implies READY |
| VirtualDevice.ReadBack | hw3/binnet_modified/vdev/vdev.cc:122-200 | what is written through a memory window is read back from the same offsets, and every other offset reads as before |
| VirtualDevice.NextConsistent | hw3/binnet_modified/vdev/vdev.cc:89-203 | every access and every interrupt keeps the state consistent, and an interrupt finds WORK set |
| VirtualDevice.AlwaysConsistent | hw3/binnet_modified/vdev/vdev.cc:89-203 | in every reachable state the register, the state and the scheduled event agree, and the assertion in triggerInterrupt holds |
| VirtualDevice.HostStepKeeps | hw3/binnet_modified/binnet/peripheral.c:15-35 | an access of a polite host is a step of the sequential program, or a poll that changes nothing; nothing is discarded |
| VirtualDevice.InterleaveKeeps | hw3/binnet_modified/vdev/vdev.cc:108-203 | under every interleaving of host and interrupts no request is discarded and the result still to be computed never changes |
| VirtualDevice.FinishedMeansIdeal | hw3/binnet_modified/binnet/peripheral.c:15-40 | when the host is through, device and results are those of the sequential program, executed counters included |
| VirtualDevice.RoundsFinish | hw3/binnet_modified/binnet/peripheral.c:19-20 | busy waiting ends: each time the pending interrupt goes off, at least one more operation completes |
| Peripheral.Board.OnStatusWrite | hw3/binnet_modified/vdev/vdev.cc:143-179 | the handler for a request: discarded while working, else started and an interrupt scheduled, delay_set and the ticks of the operation ahead; any other write changes nothing |
| Peripheral.Board.OnCounterWrite | hw3/binnet_modified/vdev/vdev.cc:180-183 | only the counter changes |
| Peripheral.Board.TriggerInterrupt | hw3/binnet_modified/vdev/vdev.cc:89-106 | the register becomes READY, with FINISH after operation 7; no event stays pending |
| Peripheral.Board.OnMemoryWrite | hw3/binnet_modified/vdev/vdev.cc:184-200 | the write reaches the right memory at the right offset |
| Peripheral.Board.OnMemoryRead | hw3/binnet_modified/vdev/vdev.cc:122-137 | the read comes from the right memory |
| Peripheral.Board.AwaitReady | hw3/binnet_modified/binnet/peripheral.c:19-20 | the polling loop ends exactly when a scheduled interrupt was due, and then none is pending |
| Peripheral.Board.PeriInit | hw3/binnet_modified/binnet/peripheral.c:15-21 | exactly one operation, the requested one, is executed, and it is over on return, delay_set and the ticks of the operation later |
| Peripheral.Board.PeriWrite | hw3/binnet_modified/binnet/peripheral.c:23-28 | the data reach the memory after any operation has finished, when its interrupt was due |
| Peripheral.Board.PeriRead | hw3/binnet_modified/binnet/peripheral.c:30-35 | the byte is read after any operation has finished, when its interrupt was due |
| Peripheral.Board.PeriIsFinished | hw3/binnet_modified/binnet/peripheral.c:37-40 | true exactly when ready and either nothing has run yet or the last operation was the final one |
| BinnetHost.ProgramPolite | hw3/binnet_modified/binnet/main.cpp:246-368 | main never sends a request without waiting for it |
| BinnetHost.TablesRun | hw3/binnet_modified/binnet/main.cpp:252-342 | the writes of either mode leave the chip prepared |
| BinnetHost.ImagesRun | hw3/binnet_modified/binnet/main.cpp:352-367 | the image loop, run sequentially, is the abstract run over the images |
| BinnetHost.ProgramRuns | hw3/binnet_modified/binnet/main.cpp:233-369 | main, run sequentially from any chip, passes its assertion, executes operation 0 and then 1 to 7 for each image, and reads back the classes |
| BinnetHost.EndToEnd | hw3/binnet_modified/binnet/main.cpp:233-369 | the same on the device with interrupts at any times: no request is lost, the assertion holds, every byte read is the class of its image, the first with the largest output, and the program ends once the interrupts go off |
| BinnetTiming.RunOperations | hw3/binnet_modified/binnet/main.cpp:358-361 | the inner loop leaves the chip as operations 1 to 7 do, and takes delay_set seven times and the ticks of their cycles |
| BinnetTiming.ClassifyOne | hw3/binnet_modified/binnet/main.cpp:352-367 | for one image on driver and device: the class, and the simulated time from storing the image to reading it, which is 7 delay_set and 322 cycles plus 100000 for each load |
| Fp80.Rebuild64 | hw3/Gem5_Homework/gem5/ext/fputils/fpbits.h:61-64 | sign, fraction and exponent fields make up the pattern |
| Fp80.Fields80 | hw3/Gem5_Homework/gem5/ext/fputils/fpbits.h:77-89 | the built 80-bit pattern has the given fields, and the integer bit exactly for a non-zero exponent |
| Fp80.ClassifyAgrees | hw3/Gem5_Homework/gem5/ext/fputils/fp80.c:53-140 | when fp80_classify agrees with the single predicates, and the one pattern where it does not |
| Fp80.ClassSigns | hw3/Gem5_Homework/gem5/ext/fputils/fp80.c:47-51 | besides zero the predicates return -1 for a set sign bit and 1 otherwise |
| Fp80.NamedPatterns | hw3/Gem5_Homework/gem5/ext/fputils/fp80.c:40-45 | the infinities and NaNs that the library names are classified as what they are called |
| Fp80.ShiftBound | hw3/Gem5_Homework/gem5/ext/fputils/fp80.c:216-219 | the normalisation loop runs at least once and at most 52 times |
| Fp80.CvfFp64 | hw3/Gem5_Homework/gem5/ext/fputils/fp80.c:193-225 | the branches and the shifting loop compute the encoding |
| Fp80.EncodeFields | hw3/Gem5_Homework/gem5/ext/fputils/fp80.c:193-225 | exponent and significand of the result for every class of input |
| Fp80.RoundTrip | hw3/Gem5_Homework/gem5/ext/fputils/fp80.c:148-225 | on every machine decoding the encoding gives the input bit for bit if and only if it is not a NaN or a canonical one, and, for a zero, the machine shifts zero by 15360 places to zero; a NaN keeps sign and kind; twice equals once |
| Fp80.NanRoundTrip | hw3/Gem5_Homework/gem5/ext/fputils/fp80.c:171-182 | which NaN each NaN becomes |
| Fp80Values.EncodeValue | hw3/Gem5_Homework/gem5/ext/fputils/fp80.c:208-224 | the value is kept if and only if the input is not subnormal; subnormal values are halved |
| Fp80Values.OrderEmbedding | hw3/Gem5_Homework/gem5/ext/fputils/fp80.c:193-225 | on non-negative numbers and infinity the order of patterns is the order of (exponent, significand), both ways |
| Fp80Values.TruncatesMeansLargest | hw3/Gem5_Homework/gem5/ext/fputils/fp80.c:153-170 | truncation means the largest 64-bit magnitude not above the value |
| Fp80Values.NormalTruncates | hw3/Gem5_Homework/gem5/ext/fputils/fp80.c:159-162 | a rebased exponent in the normal range truncates toward zero |
| Fp80Values.TruncationExact | hw3/Gem5_Homework/gem5/ext/fputils/fp80.c:153-170 | on a given machine, exactly which well-formed numbers truncate: rebased exponent above 0, from -63 to -53, one significand at 0, or a shift by 64 or more places that gives zero; the sign is always kept |
| Fp80Values.TruncationPortable | hw3/Gem5_Homework/gem5/ext/fputils/fp80.c:153-170 | truncation holds on every machine if and only if the rebased exponent is above 0, from -63 to -53, or 0 with that significand |
| Fp80Values.MaskedCountFails | hw3/Gem5_Homework/gem5/ext/fputils/fp80.c:163-166 | on a machine that masks the shift count a tiny number becomes 2 to the 51 in the fraction field |
| Fp80Values.DecodeMonotone | hw3/Gem5_Homework/gem5/ext/fputils/fp80.c:153-170 | on every machine the decoder is monotone on the numbers that truncate on every machine |
| Fp80Values.BorderDrops | hw3/Gem5_Homework/gem5/ext/fputils/fp80.c:163-166 | just below the normal range a larger number decodes to a smaller one |
| PortBinding.SortAscends | hw3/Gem5_Homework/gem5/configs/example/read_config.py:140-142 | sorting a well-formed list orders the left ends strictly and keeps the connections |
| PortBinding.PassInvariant | hw3/Gem5_Homework/gem5/configs/example/read_config.py:309-319 | whatever the outcome, no pair is made twice or in both directions, and each port binds its indices as 0, 1, 2, ... |
| PortBinding.ScheduleSuffices | hw3/Gem5_Homework/gem5/configs/example/read_config.py:299-319 | if each pair can be given a turn such that every index follows the one before it, the pass makes every pair |
| PortBinding.ScheduleNecessary | hw3/Gem5_Homework/gem5/configs/example/read_config.py:299-319 | a complete pass is such a choice of turns |
| PortBinding.CheckExact | hw3/Gem5_Homework/gem5/configs/example/read_config.py:321-324 | the length check passes if and only if every pair has been made exactly once, if and only if a choice of turns exists |
| PortBinding.MadeInNameOrder | hw3/Gem5_Homework/gem5/configs/example/read_config.py:140-142 | the left ends of the pairs made ascend by object name, on one object by port name, on one port by index |
| PortBinding.FallingIsBound | hw3/Gem5_Homework/gem5/configs/example/read_config.py:309-324 | a list is bound whose port names fall as its object names rise; in the order of port names it could not be |
| PortBinding.BindPorts | hw3/Gem5_Homework/gem5/configs/example/read_config.py:278-332 | the loops with their dictionary of counters make these connections or raise, in exactly these cases; the left ends of the pairs made ascend by object name, then port name, then index |
| PortBinding.OrderableButRefused | hw3/Gem5_Homework/gem5/configs/example/read_config.py:299-324 | a list that has a valid binding order but is refused |
| Graph.PotentialIsDistance | hw3/Gem5_Homework/gem5/configs/topologies/Torus.py:97-127 | a potential that changes by at most one along links and can always be lowered is the shortest distance |
| GridTopology.GridDistance | hw3/Gem5_Homework/gem5/configs/topologies/Torus.py:97-127 | for all sizes the shortest path between two routers has min(d, n - d) links in each dimension of a torus and the absolute difference in a mesh |
| GridTopology.LinksNumbered | hw3/Gem5_Homework/gem5/configs/topologies/Mesh.py:92-115 | internal links are numbered without a gap from the first free number |
| GridTopology.LinkPlaced | hw3/Gem5_Homework/gem5/configs/topologies/Torus.py:97-127 | weight 1 joins consecutive routers of a row or closes it, weight 2 routers of a column that are a row apart or closes it, and there is no other weight |
| GridTopology.LinksCount | hw3/Gem5_Homework/gem5/configs/topologies/Torus.py:97-127 | the number of links: each position of a row and of a column has its own |
| GridTopology.RowFirst | hw3/Gem5_Homework/gem5/configs/topologies/Torus.py:99-126 | XY routing: a shortest walk can go on over a link of weight 1 if and only if the column is still wrong |
| GridTopology.MakeTopology | hw3/Gem5_Homework/gem5/configs/topologies/Torus.py:47-129 | succeeds exactly if rows divide the routers and left-over controllers are DMA controllers; then it builds these links, in place by their weights, and all ids are 0, 1, 2, ... |
| GridTopology.MakeExtLinks | hw3/Gem5_Homework/gem5/configs/topologies/Mesh.py:62-90 | controllers are dealt to the routers in turn, the remainder goes to router 0; the assertions on level and remainder index hold |
| GridTopology.MakeLinks | hw3/Gem5_Homework/gem5/configs/topologies/Torus.py:97-129 | the nested loops produce the link lists, wrap-around included: so many links, each where its weight says, 1 between neighbours of a row and 2 between neighbours of a column |
| ClusterTopology.Network.MakeTopology | hw3/Gem5_Homework/gem5/configs/topologies/Cluster.py:76-117 | the recursion with its class counters builds the network described by the value-level recursion |
| ClusterTopology.BuildGrows | hw3/Gem5_Homework/gem5/configs/topologies/Cluster.py:76-117 | a cluster adds its routers as a tree and as many external links as its length, all numbered from the counters on |
| ClusterTopology.ClusterIsTree | hw3/Gem5_Homework/gem5/configs/topologies/Cluster.py:76-121 | for every nesting: one router per cluster, one internal link less, len(self) external links, any two routers connected, no cycle |
| ClusterTopology.AtRouter | hw3/Gem5_Homework/gem5/configs/topologies/Cluster.py:84-117 | for every cluster: its own router has exactly its direct controllers, and one link down for each direct sub-cluster |
| IpChecksum.SumFits | hw3/Gem5_Homework/gem5/ext/dnet/ip.h:428-431 | the deferred sum of up to 65535 bytes fits a 32-bit int |
| IpChecksum.Pass | hw3/Gem5_Homework/gem5/ext/dnet/ip.h:438-469 | the sixteen statements behind the labels 0, 15, ..., 1, entered at a label, add 16 words from label 0 and as many as the label says from another, without overflow |
| IpChecksum.CksumAdd | hw3/Gem5_Homework/gem5/ext/dnet/ip.h:427-476 | for at least two bytes the unrolled loop is the plain sum of 16-bit words, an odd last byte padded with zero, without overflow |
| IpChecksum.OddAsPadded | hw3/Gem5_Homework/gem5/ext/dnet/ip.h:472-473 | a buffer of odd length sums like the buffer with a zero byte appended |
| IpChecksum.NetworkExample | hw3/Gem5_Homework/gem5/ext/dnet/ip.h:478-483 | sum and checksum of the example in section 3 of RFC 1071 |
| IpChecksum.VerifiesIff | hw3/Gem5_Homework/gem5/ext/dnet/ip.h:478-483 | the folded complement is zero exactly for positive multiples of 0xffff |
| IpChecksum.StoredVerifies | hw3/Gem5_Homework/gem5/ext/dnet/ip.h:478-483 | storing the checksum of a buffer in its zeroed word makes the buffer checksum to zero |
| IpChecksum.ChangeDetected | hw3/Gem5_Homework/gem5/ext/dnet/ip.h:427-483 | changing one word of a verified buffer is noticed unless it exchanges 0 and 0xffff in a buffer that is not all zero |
| IpChecksum.ByteOrderIndependent | hw3/Gem5_Homework/gem5/ext/dnet/ip.h:439-473 | hosts of either byte order store the same two bytes |
| Conv.PaddedIsSame | hw3/simplecnn_modified/core.cpp:303-319 | padding by p and a stride of one with a filter of 2p+1 equal the "same" convolution, a sum over the pixels of the picture |
| Conv.Accumulate | hw3/simplecnn_modified/core.cpp:98-137 | with zero groups skipped, the four lanes hold the full sums, and cycles count the other groups only |
| Conv.LiveCount | hw3/simplecnn_modified/core.cpp:105-137 | the products computed for four channels are as many as the taps at which one of the four has a weight |
| Conv.OutputGroup | hw3/simplecnn_modified/core.cpp:96-155 | four channels of one pixel get full sum, bias and activation; no other cell changes |
| Conv.OpConv | hw3/simplecnn_modified/core.cpp:72-161 | exactly the cells in range, with channels rounded up to fours, are written, each with its dense value; the reported cycles |
| Conv.PruningSpeedsUp | hw3/simplecnn_modified/main.c:26-43 | raising the threshold never raises the cycles op_conv reports, and pruning never does |
| Conv.Sparsify | hw3/simplecnn_modified/main.c:26-43 | for a threshold that is not negative exactly the weights strictly between it and its negative become zero, and they are counted; a negative threshold changes nothing |
| Conv.PrunedArray | hw3/simplecnn_modified/main.c:95-98 | pruning the host's flat array prunes the kernel that it becomes on the device |
| Conv.OpPadding | hw3/simplecnn_modified/core.cpp:290-322 | the output is the input moved by the pad length, zero elsewhere |
| Conv.PadAndConvolve | hw3/simplecnn_modified/core.cpp:72-161 | op_padding and then op_conv with stride one and a filter of 2p+1 leave in every covered cell the activation of the "same" convolution plus bias |
| Conv.Neurons | hw3/simplecnn_modified/core.cpp:181-210 | the lanes hold the full dot products, the upper two zero in a last group that is not full |
| Conv.InputCount | hw3/simplecnn_modified/core.cpp:181-210 | the products computed for a group of outputs are as many as the inputs for which one of its lanes has a weight |
| Conv.OpFc | hw3/simplecnn_modified/core.cpp:163-235 | exactly the outputs that its groups reach are written, each with its dense value; the reported cycles |
| Conv.WrittenExactly | hw3/simplecnn_modified/core.cpp:179-230 | the outputs written are exactly the range if and only if its length is even; 1 modulo 4 adds the one behind it, 3 modulo 4 leaves its last one out |
| SortIncludes.SortUniqueSorts | hw3/Gem5_Homework/gem5/util/sort_includes.py:163 | a block is strictly ascending and has exactly the given lines |
| SortIncludes.LeqMeans | hw3/Gem5_Homework/gem5/util/sort_includes.py:163 | in the order of strings the first difference decides, and a prefix comes first |
| SortIncludes.DumpOfSet | hw3/Gem5_Homework/gem5/util/sort_includes.py:150-176 | what is written for a run depends only on the set of its cleaned-up includes |
| SortIncludes.SortingTwice | hw3/Gem5_Homework/gem5/util/sort_includes.py:178-234 | the output is a fixed point, for every classifier that recognises its own cleaned-up lines |
| SortIncludes.SortingKeepsContent | hw3/Gem5_Homework/gem5/util/sort_includes.py:206-234 | other non-blank lines keep their order, and each run keeps exactly its set of cleaned-up includes at its place |
| SortIncludes.RunInBlocks | hw3/Gem5_Homework/gem5/util/sort_includes.py:130-138 | the lines of a written run come block after block in the order of block_order, ascending within each, with one blank line between two blocks and none elsewhere |
| SortIncludes.RunThenText | hw3/Gem5_Homework/gem5/util/sort_includes.py:206-234 | a run, with the blank lines in it, is written as its blocks, one blank line, and the text behind it |
| SortIncludes.NoIncludes | hw3/Gem5_Homework/gem5/util/sort_includes.py:206-234 | text without includes is not touched |
| IncludeMatcher.ParseText | hw3/Gem5_Homework/gem5/util/sort_includes.py:57-61 | a cleaned-up statement is matched by its own expression with the same groups |
| IncludeMatcher.ParseForeign | hw3/Gem5_Homework/gem5/util/sort_includes.py:57-61 | it is matched by no expression with another keyword or opening delimiter |
| IncludeMatcher.ParseSpaced | hw3/Gem5_Homework/gem5/util/sort_includes.py:57-61 | any space or none may stand between keyword and delimiter |
| IncludeMatcher.StlTable | hw3/Gem5_Homework/gem5/util/sort_includes.py:9-27 | exactly the headers of the table have an STL name, their path without .h and with a c in front |
| IncludeMatcher.AngleKinds | hw3/Gem5_Homework/gem5/util/sort_includes.py:117-122 | the kind of every header in angle brackets: Python.h, .h, words, .hh, .hxx, .hpp and .H, and when a C header becomes an STL one |
| IncludeMatcher.QuoteKinds | hw3/Gem5_Homework/gem5/util/sort_includes.py:118-123 | the kind of every header in quotes: the primary header, .h and .hh |
| IncludeMatcher.SwigKinds | hw3/Gem5_Homework/gem5/util/sort_includes.py:124-127 | the four kinds of swig statements |
| IncludeMatcher.NoKind | hw3/Gem5_Homework/gem5/util/sort_includes.py:117-128 | a name in angle brackets that ends in .cc, and a name in quotes that does not end in h and is not the primary header, are no includes |
| IncludeMatcher.MainHeaders | hw3/Gem5_Homework/gem5/util/sort_includes.py:82-106 | the primary header of a source file: its path below src/ with .hh for .cc and .cpp and .h for .c |
| IncludeMatcher.MatchedAgain | hw3/Gem5_Homework/gem5/util/sort_includes.py:186-204 | match_line gives a cleaned-up line the same kind and leaves it as it is, also where a C header became an STL one |
| IncludeMatcher.MatcherStable | hw3/Gem5_Homework/gem5/util/sort_includes.py:117-128 | the ten matchers of the script meet the hypothesis of the sorting theorems, for every file name and language |
| IncludeMatcher.ScriptSortsOnce | hw3/Gem5_Homework/gem5/util/sort_includes.py:178-234 | the script itself: sorting twice equals sorting once, and the content is kept |
| IncludeMatcher.ScriptInBlocks | hw3/Gem5_Homework/gem5/util/sort_includes.py:130-176 | the runs that the script itself writes come in its blocks |
| IncludeMatcher.DirectoriesFirstIff | hw3/Gem5_Homework/gem5/util/sort_includes.py:111-116 | a sorted block has its directories first if and only if the text behind the delimiter of every directory is not above that of any file |
| IncludeMatcher.LowerFileFirst | hw3/Gem5_Homework/gem5/util/sort_includes.py:111-116 | any two system headers of a C file, a directory and a file that is below it where they first differ: both are matched as themselves, and the file comes out first |
| IncludeMatcher.FileBeforeDirectory | hw3/Gem5_Homework/gem5/util/sort_includes.py:111-116 | stdio.h comes out before sys/types.h |
| SortIncludes.Sorter.DumpBlocks | hw3/Gem5_Homework/gem5/util/sort_includes.py:150-163 | the lines of all given kinds, sorted and without duplicates |
| SortIncludes.Sorter.DumpIncludes | hw3/Gem5_Homework/gem5/util/sort_includes.py:165-176 | the blocks in order, a blank line between non-empty ones, and the dictionary cleared |
| SortIncludes.Sorter.Sort | hw3/Gem5_Homework/gem5/util/sort_includes.py:178-234 | the loop with its flag and dictionary yields the lines of the value-level definition |
| ElfRefs.Library.LiveIffHeld | hw3/Gem5_Homework/gem5/ext/libelf/elf_end.c:50-82 | in every state a descriptor exists exactly if it, or a member in it at some depth, is held |
| ElfRefs.Library.NothingLeaks | hw3/Gem5_Homework/gem5/ext/libelf/elf_end.c:50-82 | once all activations have been ended, in any order, everything is released and unmapped |
| ElfRefs.Library.End | hw3/Gem5_Homework/gem5/ext/libelf/elf_end.c:36-85 | one activation less, the returned count, only descriptors on the way up from e are released, each once, members before archives, nothing held goes, the loop ends |
| ElfRefs.Library.Release | hw3/Gem5_Homework/gem5/ext/libelf/elf_end.c:75-81 | one turn of the loop keeps the member counts exact and mapping and release in order |
| ElfRefs.Library.Open | hw3/Gem5_Homework/gem5/ext/libelf/libelf_ar.c:311-318 | a new descriptor with one activation joins, and its archive's count stays exact |
| ElfRefs.Library.OpenObject | hw3/Gem5_Homework/gem5/ext/libelf/elf_begin.c:39-80 | an archive opened for update is released again and nothing else changes; any other descriptor has its file mapped |
| ElfRefs.Library.Begin | hw3/Gem5_Homework/gem5/ext/libelf/elf_begin.c:82-154 | exactly when it returns NULL; else a new descriptor, a new member, or one more activation of a; the raw file is mapped exactly for a file opened to be read |
| DateRanges.ExactUnique | hw3/Gem5_Homework/gem5/util/find_copyrights.py:188-197 | the list of ascending ranges with gaps between neighbours is determined by the years |
| DateRanges.Shortest | hw3/Gem5_Homework/gem5/util/find_copyrights.py:188-197 | no list of ranges for the same years is shorter |
| DateRanges.ReadsOnlyYears | hw3/Gem5_Homework/gem5/util/find_copyrights.py:98-116 | reading back never invents a year |
| DateRanges.RoundTrip | hw3/Gem5_Homework/gem5/util/find_copyrights.py:98-116 | over all sets of integers, reading back gives the set if and only if every run of two or more years has four-digit ends |
| DateRanges.YearsLost | hw3/Gem5_Homework/gem5/util/find_copyrights.py:98-116 | the years 999 and 1000 are printed as 999-1000, and neither is read back |
| DateRanges.FourDigitRoundTrip | hw3/Gem5_Homework/gem5/util/find_copyrights.py:98-199 | for four-digit years process_dates inverts datestr |
| DateRanges.SpacesIgnored | hw3/Gem5_Homework/gem5/util/find_copyrights.py:100 | whatever spaces stand around the pieces of a list, the years of the pieces are read |
| DateRanges.DashIsRange | hw3/Gem5_Homework/gem5/util/find_copyrights.py:98-108 | four digits, a dash with any spaces around it and four digits name the years between, whatever follows |
| DateRanges.SignedYear | hw3/Gem5_Homework/gem5/util/find_copyrights.py:109-114 | digits, with or without a sign, name one year |
| DateRanges.NoDigits | hw3/Gem5_Homework/gem5/util/find_copyrights.py:109-114 | a piece without a digit names no year |
| DateRanges.ByHand | hw3/Gem5_Homework/gem5/util/find_copyrights.py:98-116 | the list "2004, 2005 - 2007" names four years |
| DateRanges.DateStr | hw3/Gem5_Homework/gem5/util/find_copyrights.py:175-199 | the popping loop prints exactly that list; an empty set raises |
| DateRanges.ProcessDates | hw3/Gem5_Homework/gem5/util/find_copyrights.py:98-116 | the loops over the pieces collect exactly the years that some piece names |

## Left out

- IpChecksum.CksumAdd: asks for at least two bytes, because on shorter buffers the loop body behind case 0 runs once and reads past the buffer.
- Fp80Values.DecodeMonotone: not stated where the decoder does not truncate; Fp80Values.BorderDrops shows that it fails there.
- BinaryNet.DirectAgrees: starts from arrays that carry the layers; Packing.DirectProgram derives them from the tables, whose reading from files is left out.
- Peripheral.Board.OnMemoryWrite: a driver call is one packet, and a copy past the end of a memory, undefined in the source, has no effect.
- Peripheral.Board.OnMemoryRead: one byte for a packet, and zero past the end of a memory, which is undefined in the source.
- Peripheral.Board.PeriWrite: one packet for the whole copy; how memcpy splits it is left out.
- Peripheral.Board.PeriRead: reads one byte, as main does; the rest of the host's int is not written by the source either.
- AiChip.Device.Run: in the source the memory names exist only once operation 0 has run; the model fixes their offsets from the start.
- Conv.OpConv: C's int cycle counter is unbounded here, values are reals, and lane operations cost constants, since simd.h of simplecnn is not part of the repository.
- Conv.OpPadding: the fourth dimension, of length one in all uses, is dropped.
- ElfRefs.Library.Begin: results of the system calls and of image recognition are parameters; a descriptor that _libelf_ar_open leaks on a broken archive header was never handed out and is not tracked.
- SortIncludes.SortingTwice: stated for any matcher that recognises its own cleaned-up lines; IncludeMatcher.ScriptSortsOnce discharges that for the script's, on lines without line breaks, as the files are split into.
- PipeView.Viewer.ProcessTrace: the instructions are given; the parsing of trace lines is left out.
- GridTopology.MakeTopology: link latencies, constants that are never computed with, are left out.
- Conv.OpFc: reals, an unbounded cycle counter and constant lane costs, as in Conv.OpConv.
- ClusterTopology.ClusterIsTree: clusters are values, so sharing one cluster object between two parents cannot be expressed.
- PortBinding.BindPorts: names of objects and ports enter only through their order and are integers; the attribute assignments on simulator objects are left out.
- RRAM noise: the noise factor is one; how far rounding and noise can move a score is not bounded.
- Bandwidth factors and latencies of cluster links: constants copied from the cluster.
- The early-stop call at o3-pipeview.py:134, which passes one argument too few, and the timeline drawing.
- op_input, op_output and op_pool of simplecnn: the first two are a copy and a maximum search, and the start value of op_pool is the smallest positive float.
- The host's accuracy count in both binnet programs: it compares ints of which only one byte was written.
- protolib.py varints, MeshDirCorners.py, MemConfig.py, gem5img.py, the checkpoint upgrade tables, the other dnet headers and the remaining libelf accessors.
- File input and output, option parsing, process launching, printing and plotting.
