# A verified model of GeoMX's engine, record builder and ONNX importer

This project models, in Dafny 4.11, the parts of the GeoMX repository that hold its hardest logic, and proves what
they promise. Check it with `dafny verify dfyconfig.toml`.

* **The dependency engine** (`EngineVar`, `Engine`, `EngineOrders`, `EngineVarProofs`, `EngineProofs`,
  `EngineTheorems`, `EngineProgress`, `EngineDeadlock`, `EngineOnePusher`, `EngineVersions`, `Deduplicate`).
  `ThreadedVar` is a class with its four queue operations. The engine is a transition system whose actions are its
  critical sections and atomic steps: any number of threads push, each appending one dependency after another, any
  number of workers start, return from and complete operations, and everything interleaves. The reference is running
  operations one after another, as the naive engine does inside Push.
* **The record builder** (`Im2Rec`, `Im2RecProofs`, `Im2RecTheorems`, `Lst`, `Decimal`). A parent, any number of
  workers and a writer exchange messages through bounded queues; a message that has been put may still be on its way
  to the pipe. The `.lst` files it starts from are printed and read back.
* **The graph importer** (`Toposort`, `Importer`, `ImportModel`). Depth-first sorting, binding of graph inputs, and
  the node loop. The reference is a denotation of names that knows no order.
* **Layouts** (`RowMajor`, `Shuffle`, `MoveDimension`, `Softmax`, `DepthSpace`, `TensorBlob`). Row-major tensors of any
  rank, the test that skips transposes, moving an axis, the Softmax importer around any layer that treats fibres one by
  one, DepthToSpace and SpaceToDepth, the DLTensor check, FlatToKD.
* **Padding** (`Padding`), **plugin serialization** (`Plugins`, and the bytes one by one in `PluginLayout`), **JFIF
  headers** (`Jpeg`), **CTC labels** (`CtcLabels`).

`Sequences`, `Arithmetic` and `Options` hold what several of them share.

## What the code does differently from what it says

* The engine calls itself thread safe (`src/engine/threaded_engine.h:262`), and custom operators push from a thread of
  their own (`src/operator/custom/custom-inl.h:116`), but Push takes no lock from one append to the next. Two
  operations, each reading what the other writes, deadlock when their appends interleave
  (`EngineDeadlock.TwoPushersDeadlock`). The exact condition is a cycle of conflicts that comes back to an operation
  before the dependency where it left it (`EngineDeadlock.DeadlockFreeIff`); the number of variables is not part of it,
  since one variable read twice is enough (`EngineDeadlock.RepeatedReadDeadlocks`).
* An operation that names a variable it mutates twice never runs, and the engine waits for it for ever. With one pushing
  thread this is the only way to deadlock (`EngineOnePusher.OnePusherDeadlockFreeIff`), and `DeduplicateVarHandle`
  excludes it. Otherwise it takes two pushes that overlap (`EngineDeadlock.DeadlockNeedsOverlap`).
* The single-process loop of `im2rec.py` raises an exception on the first item that cannot be read, where the
  multi-process pipeline skips it (`Im2RecTheorems.SingleProcess`).
* `is_transpose_required` returns true when a transpose is *not* required; its caller negates it.
* A skipped transpose leaves the shape unpermuted. So moving an axis to the front and back does not restore every
  tensor: on shape 2x3x1 and axis 2 it scrambles the data (`MoveDimension.MoveAndBackIff`,
  `MoveDimension.MoveBackFailsOn231`), and the Softmax importer inherits this (`Softmax.SoftmaxLayoutIff`). It also
  leaves the softmax layer on the wrong dimension: on shape 1x10 with axis 1 every element is normalised by itself, and
  the result is all ones (`Softmax.SoftmaxGroupsIff`, `Softmax.RowIsNotTreated`).
* The padding rewrite indexes its result by the dilation, not by the dimension. A convertible height of unit dilation
  changes the width's padding, and the height's is never changed. Remainders say exactly when the convolution is still
  the same (`Padding.RewriteKeepsConvolutionIff`, `Padding.RewriteBreaksWidth`). A convertible dimension of dilation
  eight or more is stored outside the array (`Padding.SymmetrizePadding`). AveragePool's way with one more element of
  end padding yields one output too many unless the stride divides (`Padding.PoolPadding`,
  `Padding.PoolHeightCanBeWrong`).
* `get_jpeg_size` reads outside its data exactly when the data is cut in the header or in the head of a segment
  (`Jpeg.GetJpegSize`, `Jpeg.CutStreamIsReadOutside`).
* A `.lst` file loses items whose path has a tab, a line break, or blanks at its edges (`Lst.ReadUndoesWriteIff`,
  `Lst.EdgeBlankIsLost`).
* `get_conv_output_size` claims one window when the kernel overshoots the padded input by less than a stride
  (`Padding.OutputSizeIff`).
* The DLTensor check refuses compact tensors whose dimensions of size one have other strides
  (`TensorBlob.CheckRefusesCompactTensor`).

## Model

| member | source | states |
|---|---|---|
| EngineVar.ThreadedVar.AppendReadDependency | src/engine/threaded_engine.cc:51-70 | a read is granted at once exactly when nothing is queued, else it queues; the new state is that of `AppendRead` |
| EngineVar.ThreadedVar.AppendWriteDependency | src/engine/threaded_engine.cc:72-98 | a write always queues and is granted at once exactly when the queue was empty and no read is pending |
| EngineVar.ThreadedVar.CompleteReadDependency | src/engine/threaded_engine.cc:100-119 | the last pending read triggers the write at the front |
| EngineVar.ThreadedVar.CompleteWriteDependency | src/engine/threaded_engine.cc:121-190 | a completed write leaves the queue and triggers the reads behind it up to the next write, or that write if there are none; the version grows by one |
| EngineVarProofs.AppendReadKeeps | src/engine/threaded_engine.cc:51-70 | the per-variable invariant (queue in append order, pending count equal to the readers, no conflict granted out of order) survives appending a read |
| EngineVarProofs.AppendWriteKeeps | src/engine/threaded_engine.cc:72-98 | the same for appending a write |
| EngineVarProofs.CompleteReadKeeps | src/engine/threaded_engine.cc:100-119 | the CHECK holds, only queued dependencies are triggered, and the invariant survives |
| EngineVarProofs.CompleteWriteKeeps | src/engine/threaded_engine.cc:121-190 | the CHECKs hold, only queued dependencies are triggered, and the invariant survives |
| EngineTheorems.NoCheckFails | src/engine/threaded_engine.cc:51-190 | however many threads push and work, no run of any program reaches a state in which an enabled action fails one of the engine's CHECKs |
| EngineTheorems.ConflictsInAppendOrder | src/engine/threaded_engine.cc:288-313 | while an operation is dispatched or runs, no conflicting one does; those appended earlier have completed the shared dependency, all others have not been dispatched |
| EngineOrders.OrdersAgree | src/engine/naive_engine.cc:162-184 | running the same operations one after another in two orders that agree on conflicting ones leaves the same contents, and every operation finds the same in the variables it names |
| EngineOrders.InTurnStep | src/engine/naive_engine.cc:162-184 | one step of the reference: given the contents of exactly the variables in its two lists, the operation's function decides what is stored into those it mutates, and the others stay |
| EngineTheorems.OperationsSeeContentsInTurn | src/engine/threaded_engine.h:336-395 | whatever the interleaving, the function of every operation is given the variables in its two lists and no others, each with the content that running the operations one after another, in the order of their starts, would leave there, and nobody changes that while it runs |
| EngineTheorems.WaitForAllRefinesInTurn | src/engine/threaded_engine.cc:412-418 | when nothing is pending, the contents are those of running the pushed operations one after another, in any order that has conflicting ones in the order of their appends; the order of their starts is such an order |
| EngineOnePusher.OperationsSeeSequentialContents | src/engine/threaded_engine.h:336-395 | with one pushing thread, these are the contents after all operations pushed before it |
| EngineOnePusher.WaitForAllRefinesSequential | src/engine/naive_engine.cc:162-184 | with one pushing thread, when nothing is pending, the contents are exactly those of the naive engine after the operations pushed so far |
| EngineVersions.VersionsRefineInTurn | src/engine/threaded_engine.cc:121-190 | when nothing is pending, each variable's version is the number of times the pushed operations mutate it, in whatever order they are counted |
| EngineVersions.VersionsRefineSequential | src/engine/naive_engine.cc:162-165 | with one pushing thread, that is the version the naive engine counts after the same pushes |
| EngineProgress.RunsAreBounded | src/engine/threaded_engine.cc:420-470 | no run has more than six actions an operation and four a dependency, so every run ends |
| EngineProgress.SelfConflictNeverRuns | src/engine/threaded_engine.h:87-92 | an operation that names a mutated variable twice is never dispatched in any run |
| EngineDeadlock.DeadlockFreeIff | src/engine/threaded_engine.cc:288-313 | however many threads push, every run that cannot go on has finished every operation if and only if no chain of conflicts between different operations comes back to its first operation at a dependency before the one it set out from; a self-conflict is such a chain with one link |
| EngineDeadlock.DeadlockNeedsOverlap | src/engine/threaded_engine.cc:288-313 | a run that cannot go on with something unfinished, and without a self-conflict, has appended a dependency of one operation between two of another |
| EngineDeadlock.TwoPushersDeadlock | src/engine/threaded_engine.cc:301-308 | two operations, each reading the variable the other mutates, have no self-conflict and can deadlock |
| EngineDeadlock.RepeatedReadDeadlocks | src/engine/threaded_engine.cc:301-308 | an operation that reads one variable twice, beside one that mutates it, has no self-conflict and can deadlock |
| EngineOnePusher.OnePusherDeadlockFreeIff | src/engine/threaded_engine.cc:288-313 | with one pushing thread, every run that cannot go on has finished every operation if and only if no operation names a variable it mutates a second time |
| Deduplicate.UniqueInPlace | include/mxnet/engine.h:289-294 | in place, one of each group of equal neighbours stays, in order |
| Deduplicate.RemoveWritten | include/mxnet/engine.h:295-304 | the in-place merge keeps exactly the reads that are not written, in order, reading every entry before overwriting it |
| Deduplicate.DeduplicateVarHandle | include/mxnet/engine.h:285-305 | writes end strictly sorted with the original write set, reads strictly sorted with the read set minus the write set |
| Deduplicate.DeduplicatedNeverSelfConflicts | include/mxnet/engine.h:285-305 | operations whose handles were deduplicated satisfy the condition under which one pushing thread cannot deadlock |
| Deduplicate.DeduplicatedCycle | include/mxnet/engine.h:285-305 | what can still deadlock them with several pushing threads is a cycle of at least two operations that enters and leaves one of them on two different variables |
| Im2Rec.ImageEncode | tools/im2rec.py:150-210 | on every path exactly one message goes out, with the item's position and its record, or None unless the file was read and packed, or the image loaded and packed |
| Im2Rec.WriteWorker.Handle | tools/im2rec.py:246-263 | one round of the writer's loop goes exactly as far as the buffered messages reach, takes them out of the buffer, and writes those that have a record, in order, each under the number of its item |
| Im2RecTheorems.WrittenInListOrder | tools/im2rec.py:228-263 | at every moment of every run, the file holds, for exactly the items below the count that can be encoded, in list order, one record with the item's number and its bytes |
| Im2RecTheorems.DealtRoundRobin | tools/im2rec.py:358-359 | in every run, what waits for worker w are items whose position leaves the remainder w |
| Im2Rec.ExpectedIs | tools/im2rec.py:253-257 | the records expected of the first k items, spelled out: the increasing positions that encode, and number and bytes at each |
| Im2RecTheorems.RunsAreBounded | tools/im2rec.py:212-226 | no run of N items and n workers has more than 5N + 6n + 5 steps |
| Im2RecTheorems.SomeStep | tools/im2rec.py:346-366 | in every state that satisfies the invariant of all runs and in which the parent is not done, some process can take a step |
| Im2RecTheorems.RunsEndWithTheWholeList | tools/im2rec.py:358-366 | a run that cannot go on has joined everyone and written exactly the items that can be encoded, in list order, each under its number, with count equal to the number of items and every queue and the buffer empty |
| Im2RecTheorems.SingleProcess | tools/im2rec.py:381-391 | the fallback writes one record an item, under its number, if every item can be encoded, and otherwise raises at the first that cannot, with everything before it written |
| Decimal.IntRoundTrip | tools/im2rec.py:87 | every integer printed by `%d` reads back as itself |
| Decimal.NumeralDigits | tools/im2rec.py:87 | character by character: the one j places before the end is the digit of weight ten to the power of j |
| Decimal.NumeralLeads | tools/im2rec.py:87 | the numeral is long enough, and begins with a zero only for zero |
| Decimal.ParseIntIs | tools/im2rec.py:144 | `int()` accepts exactly an optional sign and at least one digit, and reads the sum of the digits times their powers of ten |
| Decimal.LabelRoundTrip | tools/im2rec.py:88-89 | every label printed by `%f` reads back as the nearest multiple of a millionth |
| Decimal.LabelDigits | tools/im2rec.py:88-89 | character by character: a sign, the numeral of the whole part, a point, and the six digits of the number of millionths |
| Decimal.MicrosNearest | tools/im2rec.py:88-89 | that number is the nearest to the label, and the even one of two |
| Decimal.ParsesIff | tools/im2rec.py:144 | `float()` accepts, behind the sign, exactly digits, at least one, with at most one point |
| Decimal.ParseDigits | tools/im2rec.py:144 | and reads the sum of the digits times their powers of ten, divided by ten for each decimal |
| Decimal.ParseWhole | tools/im2rec.py:144 | the same for digits without a point |
| Decimal.PlusRead | tools/im2rec.py:144 | a plus sign, or none, leaves that number |
| Decimal.MinusRead | tools/im2rec.py:144 | a minus sign negates it |
| Decimal.RoundedIffWhole | tools/im2rec.py:88-89 | that is the label itself if and only if it is a whole number of millionths |
| Lst.WriteList | tools/im2rec.py:85-91 | the loops write the lines of all items, one after another |
| Lst.ReadList | tools/im2rec.py:132-148 | the loop yields the items of the readable lines, in order, and skips the others |
| Lst.SplitIs | tools/im2rec.py:137 | a line is cut at every tab and only there |
| Lst.StripIs | tools/im2rec.py:137 | only blanks at the ends are taken off, and none is left there |
| Lst.LineIs | tools/im2rec.py:134 | a line goes up to the first line break or the end |
| Lst.WrittenLine | tools/im2rec.py:87-91 | the line of an item, as it stands in the file |
| Lst.LineRoundTrip | tools/im2rec.py:136-148 | the printed line of an item with a path that can be written reads back as its item with rounded labels, or is skipped if it has no label |
| Lst.ReadAfterWrite | tools/im2rec.py:132-148 | reading what was written with such paths gives every item that has a label, in order, with its labels rounded |
| Lst.ReadIsGood | tools/im2rec.py:132-148 | whatever the file, every item that is read has a label and such a path |
| Lst.ReadUndoesWriteIff | tools/im2rec.py:85-91 | for every list: it comes back unchanged if and only if every path is nonempty, without tabs, line breaks or blanks at its edges, every item has a label, and every label is a whole number of millionths |
| Lst.EdgeBlankIsLost | tools/im2rec.py:137 | an item whose path begins with a blank does not come back |
| Toposort.BuildNodeMap | 3rdparty/onnx-tensorrt/toposort.hpp:77-89 | fails exactly when an output name is produced twice, and else maps every output to its producer |
| Toposort.Search.GetPostOrder | 3rdparty/onnx-tensorrt/toposort.hpp:37-71 | ends; failing means there is a cycle; succeeding leaves the node visited and the order sound |
| Toposort.Search.SortAll | 3rdparty/onnx-tensorrt/toposort.hpp:90-98 | succeeds if and only if the producer relation is acyclic, with a topological order |
| Toposort.Sort | 3rdparty/onnx-tensorrt/toposort.hpp:75-98 | succeeds if and only if output names are unique and the producer relation is acyclic; then the order is a permutation of all nodes with producers first |
| Toposort.TopologicalMeansAcyclic | 3rdparty/onnx-tensorrt/toposort.hpp:37-98 | a graph that has a topological order has no cycle |
| Importer.MapSources | 3rdparty/onnx-tensorrt/ModelImporter.cpp:94-107 | fails exactly on a repeated name, and else tabulates the sources |
| Importer.ImportInputs | 3rdparty/onnx-tensorrt/ModelImporter.cpp:86-135 | succeeds exactly when the inputs make sense, with initializers or a table of descriptors but not both and no null table for a nonzero count, and binds each input to the weights of the initializer of its name, else of the descriptor of its name, else to its own tensor |
| Importer.InputValueIs | 3rdparty/onnx-tensorrt/ModelImporter.cpp:108-131 | the value of an input, case by case: an initializer of its name decides, else a descriptor, else its own tensor |
| ImportModel.DenotationIsUnique | 3rdparty/onnx-tensorrt/ModelImporter.cpp:277-296 | two imports that bind the denotation bind the same map, whatever order they took |
| ImportModel.MeaningEquation | 3rdparty/onnx-tensorrt/ModelImporter.cpp:277-296 | on a sorted graph a name means what its producer provides, whatever the depth the denotation looks through, and a node means what its importer makes of the node and the meanings of its inputs in their order |
| ImportModel.NodeEquation | 3rdparty/onnx-tensorrt/ModelImporter.cpp:136-147 | a node yields the outputs its importer returns for the node and the meanings of its inputs, if and only if there is one, it succeeds and it returns no more than declared; each failure has its error, and so has an input without meaning |
| ImportModel.NodeOkIff | 3rdparty/onnx-tensorrt/ModelImporter.cpp:277-306 | when a node is right, in terms of what its importer returns: besides, no output takes the name of a graph input, and declared outputs have a first one that is not null |
| ImportModel.ModelImporter.ReadInputs | 3rdparty/onnx-tensorrt/ModelImporter.cpp:280-284 | the values of a node's inputs, or the missing-input error if one is not bound |
| ImportModel.ModelImporter.BindOutputs | 3rdparty/onnx-tensorrt/ModelImporter.cpp:287-296 | binds each output that was provided to a free name, or fails on a name already taken |
| ImportModel.ModelImporter.ImportNodes | 3rdparty/onnx-tensorrt/ModelImporter.cpp:277-306 | for every topological order, succeeds if and only if every node has a meaning, rebinds no graph input and has a shape to log, and then binds exactly the denotation; an error points at a node at fault, and a missing input is a name that nothing provides |
| ImportModel.ModelImporter.ImportModel | 3rdparty/onnx-tensorrt/ModelImporter.cpp:261-306 | succeeds if and only if inputs, names, acyclicity and every node are right, and then binds the denotation |
| RowMajor.TransposeBack | 3rdparty/onnx-tensorrt/builtin_op_importers.cpp:57-79 | transposing by a permutation and then by its inverse restores shape and data |
| Shuffle.IsTransposeRequired | 3rdparty/onnx-tensorrt/builtin_op_importers.cpp:39-54 | the loop returns true exactly when the permutation keeps the order of all dimensions larger than one |
| Shuffle.SkipIffMovesNothing | 3rdparty/onnx-tensorrt/builtin_op_importers.cpp:39-54 | for every permutation and shape without empty dimensions, that is the case if and only if no element changes its row-major offset |
| Shuffle.SkippingKeepsData | 3rdparty/onnx-tensorrt/builtin_op_importers.cpp:57-79 | skipping or not, the data is that of the transposed tensor |
| Shuffle.TransposeChangesNumbering | 3rdparty/onnx-tensorrt/builtin_op_importers.cpp:74-76 | a transpose that is not skipped does change some tensor of that shape |
| MoveDimension.BuildPerm | 3rdparty/onnx-tensorrt/builtin_op_importers.cpp:81-98 | erasing and inserting builds the permutation that moves one axis; out of range it fails |
| MoveDimension.MoveIsInvertible | 3rdparty/onnx-tensorrt/builtin_op_importers.cpp:88-95 | it is always a valid permutation, and moving back is its inverse |
| MoveDimension.MoveIs | 3rdparty/onnx-tensorrt/builtin_op_importers.cpp:88-95 | the entry moved comes to its new place, and the others keep their order |
| MoveDimension.MoveAndBackRestores | 3rdparty/onnx-tensorrt/builtin_op_importers.cpp:81-98 | axis to 0 and 0 to axis restores the data, unless the axis has size one, dimension 0 has not, and some dimension between them has not |
| MoveDimension.MoveAndBackIff | 3rdparty/onnx-tensorrt/builtin_op_importers.cpp:1533-1541 | the data is restored for all contents if and only if the shape is not one of those |
| MoveDimension.MoveBackFailsOn231 | 3rdparty/onnx-tensorrt/builtin_op_importers.cpp:81-98 | the tensor of shape 2x3x1 that numbers its six elements is scrambled |
| MoveDimension.FlattenShape | 3rdparty/onnx-tensorrt/builtin_op_importers.cpp:115-126 | the loop folds the dimensions from the axis on into one, in place |
| Softmax.SoftmaxLayoutIff | 3rdparty/onnx-tensorrt/builtin_op_importers.cpp:1521-1543 | the layout around the softmax layer is restored for all contents if and only if the flattened axis is not such a case |
| Softmax.ArrivedIsRight | 3rdparty/onnx-tensorrt/builtin_op_importers.cpp:1533-1541 | where the axis arrives, the importer around any layer that is f on each fibre of dimension 0 is f on each group of the flattened axis, for all contents |
| Softmax.SoftmaxGroupsIff | 3rdparty/onnx-tensorrt/builtin_op_importers.cpp:1521-1543 | for every layer whose f makes positive numbers with sum one, and for every content: the result is f on each group of the flattened axis if and only if the axis is the first, or the move is not skipped, or the first dimension and the flattened axis both have size one |
| Softmax.NotArrivedOnes | 3rdparty/onnx-tensorrt/builtin_op_importers.cpp:1533-1541 | otherwise every element of the result is one exactly when the groups have more than one element |
| Softmax.RowIsNotTreated | 3rdparty/onnx-tensorrt/builtin_op_importers.cpp:1533-1541 | on shape 1x10 with axis 1 every such layer, for every content, gives ten ones, and not f on the ten elements |
| Softmax.SoftmaxNormalises | 3rdparty/onnx-tensorrt/builtin_op_importers.cpp:1537 | dividing weights by their sum makes positive numbers with sum one, whatever positive function stands for the exponential |
| Softmax.LayerOfIsFibrewise | 3rdparty/onnx-tensorrt/builtin_op_importers.cpp:1537 | every such function has a layer that applies it along dimension 0 |
| DepthSpace.FillDepthPerm | 3rdparty/onnx-tensorrt/builtin_op_importers.cpp:802-807 | the loop fills the permutation that DepthPerm describes entry by entry |
| DepthSpace.FillSpacePerm | 3rdparty/onnx-tensorrt/builtin_op_importers.cpp:1578-1583 | the loop fills the permutation that SpacePerm describes entry by entry |
| DepthSpace.PermsAreInverse | 3rdparty/onnx-tensorrt/builtin_op_importers.cpp:1578-1583 | the two permutations are valid and inverse to each other |
| DepthSpace.DepthToSpaceShape | 3rdparty/onnx-tensorrt/builtin_op_importers.cpp:791-800 | succeeds exactly when the block size divides the channels once per spatial dimension, with blocks, channel and sizes in this order |
| DepthSpace.SpaceToDepthShape | 3rdparty/onnx-tensorrt/builtin_op_importers.cpp:1560-1576 | succeeds exactly when the block size divides every spatial size |
| DepthSpace.DepthToSpaceAt | 3rdparty/onnx-tensorrt/builtin_op_importers.cpp:783-820 | element by element, for any spatial rank: block position y of channel k at x comes from the channel numbered by y and then k |
| DepthSpace.SpaceUndoesDepth | 3rdparty/onnx-tensorrt/builtin_op_importers.cpp:1560-1598 | SpaceToDepth undoes DepthToSpace, in shape and in every element |
| DepthSpace.DepthUndoesSpace | 3rdparty/onnx-tensorrt/builtin_op_importers.cpp:783-820 | and the other way round |
| TensorBlob.IsCompact | include/mxnet/tensor_blob.h:117-138 | the loop accepts exactly the row-major strides |
| TensorBlob.OffsetsAgreeIff | include/mxnet/tensor_blob.h:117-138 | strided and contiguous offsets agree on every index if and only if there is no element or the strides of all dimensions larger than one are row-major; accepted strides always agree |
| TensorBlob.CheckRefusesCompactTensor | include/mxnet/tensor_blob.h:117-138 | a compact tensor the check refuses |
| TensorBlob.FlatToKD | include/mxnet/tensor_blob.h:337-354 | for every rank and number of dimensions, the three loops produce the shape with leading dimensions merged or ones in front |
| TensorBlob.FlatToKDKeepsElements | include/mxnet/tensor_blob.h:337-354 | the element count and the offset of every element stay the same |
| TensorBlob.RemoveFirstDim | 3rdparty/onnx-tensorrt/trt_utils.hpp:114-123 | the entries behind the batch entry, less one; a valid permutation stays one |
| TensorBlob.BatchTranspose | 3rdparty/onnx-tensorrt/builtin_op_importers.cpp:1755-1771 | transposing a batch by a permutation that fixes the batch dimension transposes every sample by what remains of it |
| Padding.OutputSizeIff | 3rdparty/onnx-tensorrt/onnx2trt_utils.hpp:237-248 | the output size counts the windows that fit, if and only if the padded input is not short of the kernel by less than a stride, or by two strides or more |
| Padding.SamePadsGiveCeiling | 3rdparty/onnx-tensorrt/onnx2trt_utils.cpp:67-106 | SAME pads differ by at most one, with the larger on the right side, and give exactly the ceiling of input over stride, even when they are negative |
| Padding.SamePadsGiveOutput | 3rdparty/onnx-tensorrt/onnx2trt_utils.cpp:84-106 | with an output shape given, they sum to the total, differ by at most one on the right side, and give that many outputs, each a window that fits |
| Padding.SymmetrizePadding | 3rdparty/onnx-tensorrt/onnx2trt_utils.cpp:114-134 | what the loop does to the two pads, with its index as it is, for all dilations; it stores outside the array exactly when a dimension that is convertible when it is reached has a dilation of eight or more |
| Padding.WidthIsSettled | 3rdparty/onnx-tensorrt/onnx2trt_utils.cpp:114-134 | a width of unit dilation is never convertible after the rewrite; its beginning stays, and its end stays or becomes the beginning |
| Padding.ConvertibleIff | 3rdparty/onnx-tensorrt/onnx2trt_utils.cpp:124-131 | which paddings pass its test, for all kernels, by a remainder alone |
| Padding.RewriteKeepsOutputsIff | 3rdparty/onnx-tensorrt/onnx2trt_utils.cpp:114-134 | by remainders: the width keeps its number of outputs unless a convertible height of unit dilation meets a width that is asymmetric and not convertible |
| Padding.RewriteBreaksWidth | 3rdparty/onnx-tensorrt/onnx2trt_utils.cpp:132 | a layer whose width changes because its height could have |
| Padding.RewriteKeepsConvolutionIff | 3rdparty/onnx-tensorrt/onnx2trt_utils.cpp:114-134 | for all heights and all kernels: the convolution along the width is the same, output for output, unless that happens and one of the two paddings leaves room for an output |
| Padding.PoolWithCropIff | 3rdparty/onnx-tensorrt/builtin_op_importers.cpp:472-480 | for all kernels: padding by a stride more and cropping one output pools what was asked for if and only if the stride divides, or the kernel overshoots by a stride or more; else there is exactly one output too many |
| Padding.PoolPadding | 3rdparty/onnx-tensorrt/builtin_op_importers.cpp:467-490 | the loop accepts exactly ends equal to the beginning or one more, and pools each dimension as asked exactly when the ends agree or that condition holds |
| Padding.PoolWidthIff | 3rdparty/onnx-tensorrt/builtin_op_importers.cpp:467-490 | a width that is still one longer at its end after the rewrite is pooled right, unless the kernel overshoots by one less than a stride of at least two |
| Padding.PoolHeightCanBeWrong | 3rdparty/onnx-tensorrt/builtin_op_importers.cpp:467-490 | a height pooled into three rows instead of two |
| Plugins.PodRoundTrip | 3rdparty/onnx-tensorrt/serialize.hpp:46-64 | every value of a plain type reads back as itself, using up the bytes written |
| Plugins.StringRoundTrip | 3rdparty/onnx-tensorrt/serialize.hpp:66-82 | every string without a zero byte reads back as itself |
| Plugins.FieldsRoundTrip | 3rdparty/onnx-tensorrt/serialize.hpp:84-108 | every sequence of plain, fixed and vector fields reads back as itself, whatever follows it |
| Plugins.PluginRoundTrip | 3rdparty/onnx-tensorrt/plugin.hpp:106-124 | each of the four plugins, wrapped, serialized and read back through the factory, is itself again, uses up exactly the bytes written, and these are as many as getSerializationSize says |
| PluginLayout.MagicBytes | 3rdparty/onnx-tensorrt/plugin_common.hpp:25 | the bytes begin with 50 76 30 31 00 |
| PluginLayout.NameBytes | 3rdparty/onnx-tensorrt/plugin.hpp:112-117 | behind them stands the type's registered name and a zero |
| PluginLayout.BaseBytes | 3rdparty/onnx-tensorrt/plugin.cpp:31-36 | behind it the number of Dims in eight bytes, their 17 integers each, the batch size in eight bytes, the data type in four and the format in one, byte j of a number being its digit of weight 256 to the power of j, signed ones in two's complement |
| PluginLayout.FancyActivationBytes | 3rdparty/onnx-tensorrt/FancyActivation.hpp:66-71 | behind the base the activation type, alpha and gamma, four bytes each, at their offsets |
| PluginLayout.ResizeNearestBytes | 3rdparty/onnx-tensorrt/ResizeNearest.hpp:43-47 | behind the base the rank and eight scales |
| PluginLayout.SplitBytes | 3rdparty/onnx-tensorrt/Split.hpp:48-52 | behind the base the axis, the number of lengths in eight bytes and the lengths |
| PluginLayout.InstanceNormalizationBytes | 3rdparty/onnx-tensorrt/InstanceNormalization.hpp:56-59 | behind the base epsilon and the number of channels |
| PluginLayout.InstanceNormalizationMoreBytes | 3rdparty/onnx-tensorrt/InstanceNormalization.hpp:60-61 | then the scales and the biases, each behind their number in eight bytes |
| Plugins.Cursor.Serialize | 3rdparty/onnx-tensorrt/plugin.hpp:112-117 | with room for getSerializationSize bytes, serializing moves the position by exactly that many and leaves every other byte of the buffer alone |
| Plugins.Cursor.WriteFields | 3rdparty/onnx-tensorrt/plugin.cpp:31-36 | field after field is written at the position, which moves behind it, and no other byte changes |
| Plugins.Reader.ReadAll | 3rdparty/onnx-tensorrt/serialize.hpp:58-63 | the position and the length move together by what was read, or the assertion fails because too little is left |
| Plugins.Reader.ReadField | 3rdparty/onnx-tensorrt/serialize.hpp:98-107 | a vector is read as its size and that many values |
| Plugins.Reader.ReadString | 3rdparty/onnx-tensorrt/serialize.hpp:75-81 | a string is read up to its zero byte, or the assertion fails because there is none |
| Plugins.Reader.ReadFields | 3rdparty/onnx-tensorrt/plugin.cpp:38-43 | reading through the moving cursor gives what reading the fields as a whole gives |
| Plugins.PluginFactory.Create | 3rdparty/onnx-tensorrt/PluginFactory.cpp:35-55 | the factory returns what the bytes denote, or the right refusal, and keeps exactly the plugins it made |
| Jpeg.GetJpegSize | plugin/opencv/cv_api.cc:37-71 | every well-formed JFIF stream shorter than 4 GiB has its lines and samples returned, and a size is only returned for such a stream; the code reads outside the data if and only if the data is cut in the header or in the head of a segment; its position exceeds 32 bits, where the model stops, if and only if a segment length leads there; else there is no size |
| Jpeg.WalkFollowsSegments | plugin/opencv/cv_api.cc:48-64 | whatever the data, the walk has gone over segments that carry their own lengths when it ends, and its answer is that of the place where it ends |
| Jpeg.CutStreamIsReadOutside | plugin/opencv/cv_api.cc:51-52 | a stream cut behind the first byte of a marker is read outside |
| Jpeg.SizeOfStream | plugin/opencv/cv_api.cc:37-71 | the size found in one stream, given byte by byte |
| CtcLabels.LabelLengths | plugin/warpctc/warpctc-inl.h:103-117 | succeeds exactly when the labels fill the batch; each length is that of the entry's own labels without blanks, and the total that of all |
| CtcLabels.NonBlankIs | plugin/warpctc/warpctc-inl.h:119-128 | the labels packed are those at exactly the positions that do not hold the blank, in order |
| CtcLabels.RemoveBlank | plugin/warpctc/warpctc-inl.h:119-128 | the cells written are exactly the labels that are not blank, in order, and no cell behind them changes |
| CtcLabels.PackLabels | plugin/warpctc/warpctc-inl.h:182-189 | the block is filled exactly, the lengths sum to its size, and cutting it by the lengths gives every entry its own labels |

## Left out

- The GeoMX parameter server (HiPS, DGT, TSEngine, P3, HFA, Bi-Sparse) and the KVStore: communication, not modelled.
- Memory orderings below the engine's own locks and atomics.
- Variable deletion, exceptions carried by variables, WaitForVar, bulk execution, priorities, devices and shutdown of
  the engine. An operation's function is an arbitrary pure function of what it sees.
- The executors that implement `PushToExecute` (worker pools): any dispatched operation may start at any time.
- Crashes inside image processing and operating-system limits on pipe capacity in `im2rec.py`.
- Decimal.LabelRoundTrip: labels are real numbers, so nothing is said of the rounding of binary floating point, of
  infinities or of NaN; `int()` and `float()` are modelled on an optional sign, digits and one point, not on
  exponents, underscores or other digits.
- Lst.LineRoundTrip: asks for a path that can be written; what other paths read back as is not said, only that it is not
  the item (`Lst.ReadUndoesWriteIff`).
- Lst.ReadAfterWrite: asks for paths that can be written, for the same reason.
- Importers of single operators are arbitrary pure functions of the node and its inputs; weight conversion, marking of outputs, the one-line
  importers and the Concat plugin of the TensorRT library are left out.
- ImportModel.ModelImporter.ImportModel: stops before the outputs are marked, and does not say which error code comes
  first when several things are wrong. A null first output is an error here, where the source reads through null.
- Softmax.SoftmaxGroupsIff: the layer is taken to work along dimension 0, where the importer puts the axis, and over
  real numbers; the TensorRT layer itself is not part of this model.
- Limits on the number of tensor dimensions (`MAX_DIMS`) in the layout functions: ranks are unbounded here.
- The `pads` attribute branch of `get_kernel_params`: it copies its entries.
- Padding.SymmetrizePadding: does not say what a store outside the array does; the model stops there.
- Plugins.PluginRoundTrip: numbers are little-endian, `Dims` is seventeen 32-bit integers and `PluginFormat` one byte,
  as the TensorRT header lays them out; that header is not part of this model.
- Jpeg.GetJpegSize: past a read outside the data, and past a position that wraps around 32 bits, the model does not go
  on; the source's unsigned position wraps and walks on.
- get_png_size, half-precision tables, resource and context bookkeeping: easy members.
