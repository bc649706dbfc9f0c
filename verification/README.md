# A verified model of the trsc compiler

trsc compiles a small Rust-like language through MLIR and has a special path for dense matrix
products: loop nests are recognised as a GEMM, elementwise epilogues are fused into it, and the GEMM
is lowered to CPU loops or to one of seven CUDA kernels of growing sophistication. This project
models that path and the passes around it, and proves that they keep the meaning of programs.

`dafny verify dfyconfig.toml` checks everything.

## What is modelled

**GPU kernels** (`Machine`, `Kernels`, `KernelRaces`, `KernelMeaning`, `KernelCorrect`, `KernelTail`,
`Levels`, `Ladder`, `Level1`). A launch is a grid of blocks of threads that run straight-line code between
barriers. The threads of a block and the blocks of the grid interleave one memory access at a time,
in any order. The kernels of levels 3 to 6 are one template (a shared tile, two barriers per K-tile)
and those of levels 7 and 8 another (two shared buffers, register-staged prefetch, one barrier per
K-tile), both over a *tiling*, which says who owns which accumulator and who copies which vector.
`Levels` gives the tiling of each level, with the division and remainder arithmetic of the lowering,
and `Ladder` puts levels 2 to 8 together. Elements are uninterpreted: nothing is assumed of `add`,
`mul` and `max`, because every level starts from C and adds products in ascending k. `GemmSpec` is
that left fold followed by the epilogue. Level 1 is a method over arrays.

**Loop passes** (`LoopIR`, `LoopFusion`, `Licm`, `Nests`, `MatMulRecognition`, `MatMulMatcher`,
`MatMulAliasing`, `EpilogueFusion`, `EpilogueMatcher`). A small SSA IR with pure operations, loads,
stores and counted loops, and an evaluator that also records which addresses were read and written.
Fusion, hoisting and matching are methods that rewrite it; the theorems say what the rewritten code
computes.

**Statements and expressions** (`EarlyReturn`, `ShortCircuit`). Statement trees, direct execution, the
structured operations that `genStmt` emits, and their execution, over states and expressions about
which nothing is assumed. Expressions in turn are lowered to operations over SSA names, with the right
operand of `&&` and `||` in a region of its own.

**Front end and runtime** (`Syntax`, `ParserSpec`, `Parser`, `FormatStrings`, `DeviceDispatch`,
`TypeInterning`, `Arena`, `SourceLines`). The precedence-climbing parser as a class refining a
functional specification; the two scanners of `println!` formats; the CUDA error latch and the
dispatch protocol; type interning, the AST bump allocator and the line cache as classes.

## What the passes take for granted

Some passes check less than soundness needs. For these the missing condition has a result of its own,
which says exactly when the code is right or shows an input for which it is not:

* Levels 3 to 8 always add whole K-tiles, and level 2 applies the epilogue inside the k loop.
  `Ladder.LadderExact`: a level computes the GEMM for every arithmetic, under every schedule, exactly
  when BK divides K, or at level 2 when there is no epilogue or K is 1, or when C is empty; K may be
  any number. `KernelTail.TailIsStale` shows what goes wrong with a K tail in ordinary arithmetic.
* A `return` under a loop is dropped by the loop generators. `EarlyReturn.FunctionCorrect` covers all
  statement trees, with such a return ending only the iteration. `EarlyReturn.EarlyReturnExact`: that
  is what the program means exactly when no return under a loop is live, that is, each is behind a
  statement that always returns. `EarlyReturn.ReturnInLoopDropped` is an example.
* The hazard test of loop fusion compares indices position by position, so conflicting accesses
  without an index that moves with the loop pass it. `LoopFusion.FusesThroughScalar` is an example
  in which fusion changes the result.
* Recognition does not look at loop bounds: a nest may start anywhere, have any step, and have inner
  bounds that depend on outer variables. Nor does it compare memrefs: C may stand in the place of A
  or B. `MatMulAliasing.RecognitionExact`: the rewrite is right for every arithmetic and memory
  exactly when the nest visits every product of every element of C and no product reads an element of
  C that the nest has changed; `MatMulAliasing.FreshSizes` says what that means for sizes.
* Epilogue fusion does not look at loop bounds either, drops an epilogue the GEMM already had, and
  takes a zero of either sign. `EpilogueFusion.FusionExact`: it is right for every arithmetic and
  memory exactly when each element the consumer visits belongs to a plain GEMM and the constant equals
  +0.0, and each element it does not visit belongs to a GEMM that has this very epilogue.

Other conditions are hypotheses only; nothing here says that the code fails without them. Distinct
memref values do not alias, and the kernels have A, B and C apart. `add`, `mul` and `max` commute in
recognition and epilogue fusion, because either operand order is accepted. Nests access their matrices
in bounds, and matrix sizes are below 2^31, because index casts go through 32-bit integers. The kernels
need positive tile sizes, TM dividing BM and TN dividing BN at levels 4 to 7, multiples of 4 for BK,
BN and N at levels 6 to 8, and equal tile sizes at level 3. Where K is no multiple of 4 at those levels,
the last vector of a row of A reads past the row, and what it reads is arbitrary.

The documentation says that shapes a level cannot use fall back to known-good defaults; the code does
that at level 8 only, and the model follows the code.

## Model

| member | source | states |
|---|---|---|
| Machine.ScheduleIndependence | lib/MLIR/MatMulOpts/GemmLowering.cpp:1747-1775 | Every finished interleaving of a race-free kernel leaves each cell as the only block that may write it leaves it: the result does not depend on the schedule |
| Machine.RunInv | lib/MLIR/MatMulOpts/GemmLowering.cpp:1747-1775 | In every reachable state each thread has the registers, and each cell the value, of threads running alone from the last barrier |
| Machine.NoDeadlock | lib/MLIR/MatMulOpts/GemmLowering.cpp:1770-1775 | An unfinished launch always has an enabled move |
| Machine.RunLength | lib/MLIR/MatMulOpts/GemmLowering.cpp:1770-1775 | Every run has at most as many moves as the kernel has instructions and barriers, so runs end |
| Machine.FinishedRun | lib/MLIR/MatMulOpts/GemmLowering.cpp:1770-1775 | Every launch has a run that finishes |
| Machine.Launch | lib/MLIR/MatMulOpts/GemmLowering.cpp:1770-1806 | A scheduler that picks any enabled move terminates in the schedule-independent memory |
| KernelRaces.KernelRaceFree | lib/MLIR/MatMulOpts/GemmLowering.cpp:1582-1775 | In every barrier interval of both kernel shapes no shared or C cell written by one thread is accessed by another, and blocks never meet |
| KernelRaces.GuardLanes | lib/MLIR/MatMulOpts/GemmLowering.cpp:1502-1570 | The one bounds test of a vector access passes whenever some lane is inside the matrix, and only then where rows are whole vectors |
| KernelRaces.LoadsInside | lib/MLIR/MatMulOpts/GemmLowering.cpp:1502-1690 | Every load of A, B, C and the bias is in bounds when the rows of A and B are whole vectors |
| ThreadMeaning.CopyEval | lib/MLIR/MatMulOpts/GemmLowering.cpp:1502-1570 | A thread's share of a tile load puts exactly the in-range elements of its vectors at their, possibly transposed, places and changes nothing else |
| ThreadMeaning.PrefetchEval | lib/MLIR/MatMulOpts/GemmLowering.cpp:1587-1690 | The unrolled prefetch leaves in registers the elements of the next tile its guards admit, and touches no memory |
| ThreadMeaning.CommitEval | lib/MLIR/MatMulOpts/GemmLowering.cpp:1747-1770 | Committing the registers writes exactly the staged vectors into the other buffer |
| ThreadMeaning.StagedAsCopied | lib/MLIR/MatMulOpts/GemmLowering.cpp:1599-1690 | Slots with tail guards commit exactly the tile positions that the strided loop of the prologue would copy |
| ThreadMeaning.TileEval | lib/MLIR/MatMulOpts/GemmLowering.cpp:1692-1746 | The unrolled inner loop adds, to every accumulator, its products of the shared tile in ascending k |
| ThreadMeaning.StoreEval | lib/MLIR/MatMulOpts/GemmLowering.cpp:1779-1806 | The guarded stores write the epilogue of each in-range accumulator to its own C cell and nothing else |
| KernelCorrect.TileInPlace | lib/MLIR/MatMulOpts/GemmLowering.cpp:1572-1585 | Double-buffer safety: the buffer consumed in a phase holds exactly that phase's K-tile at all in-range rows and columns |
| KernelCorrect.BufferStable | lib/MLIR/MatMulOpts/GemmLowering.cpp:1747-1775 | In every reachable state of every schedule a block that is consuming still finds its K-tile whole in the buffer it reads |
| KernelCorrect.AccIsDot | lib/MLIR/MatMulOpts/GemmLowering.cpp:1692-1746 | After any number of K-tiles each accumulator is the left fold from the initial C over that many products |
| KernelCorrect.OwnerOf | lib/MLIR/MatMulOpts/GemmLowering.cpp:2324-2350 | Every element of C has exactly one owning block, thread and accumulator slot, whatever M and N |
| KernelCorrect.FinalC | lib/MLIR/MatMulOpts/GemmLowering.cpp:99-111 | The final C element is the epilogue of its owner's accumulator |
| KernelCorrect.FinalElsewhere | lib/MLIR/MatMulOpts/GemmLowering.cpp:1779-1806 | No other global cell changes |
| KernelCorrect.KernelComputesGemm | lib/MLIR/MatMulOpts/GemmLowering.cpp:1347-1806 | Every tiled kernel computes the GEMM with its epilogue, for all sizes with BK dividing K |
| KernelCorrect.KTailExact | lib/MLIR/MatMulOpts/GemmLowering.cpp:1565-1600 | A tiled kernel with the rows of B in whole vectors is right for every arithmetic and schedule exactly when BK divides K or C is empty, for any K |
| KernelTail.TailIsStale | lib/MLIR/MatMulOpts/GemmLowering.cpp:1502-1570 | In integer arithmetic, with ones in the operands and in shared memory, every finished run adds all products of the whole K-tiles to C where the GEMM adds K, and no copy of a tile fills its positions of B past the end of K |
| KernelTail.PastEndNotCopied | lib/MLIR/MatMulOpts/GemmLowering.cpp:1502-1570 | The same of A when K is a multiple of the vector width |
| KernelTail.OnesMemory | lib/MLIR/MatMulOpts/GemmLowering.cpp:1502-1570 | Such a memory exists for every shape |
| Levels.Unflatten | lib/MLIR/MatMulOpts/GemmLowering.cpp:1502-1570 | The div/rem decomposition of a linear index gives an aligned vector of the tile, and flattening it gives the index back |
| Levels.Flatten | lib/MLIR/MatMulOpts/GemmLowering.cpp:1502-1570 | Every aligned vector of the tile has an index in range that unflattens to it |
| Levels.CopiedOnce | lib/MLIR/MatMulOpts/GemmLowering.cpp:1502-1570 | Across a block no vector is visited twice by the strided loops |
| Levels.SlotsAsStrided | lib/MLIR/MatMulOpts/GemmLowering.cpp:1599-1690 | The live prefetch slots of a thread are exactly the vectors of its strided loop |
| Levels.CopyingFills | lib/MLIR/MatMulOpts/GemmLowering.cpp:1502-1690 | Both forms of cooperative loading are exact partitions of each tile among the threads |
| Levels.Level2Owns | lib/MLIR/MatMulOpts/GemmLowering.cpp:224-290 | At level 2 thread places partition the block tile |
| Levels.Level3Legal | lib/MLIR/MatMulOpts/GemmLowering.cpp:313-486 | At level 3 threads partition the square tile and its copies |
| Levels.BlockLegal | lib/MLIR/MatMulOpts/GemmLowering.cpp:735-1015 | At levels 4 to 7 the TM x TN register tiles partition the block tile, and copies and slots partition the shared tiles |
| Levels.Chosen | lib/MLIR/MatMulOpts/GemmLowering.cpp:1876-1910 | A shape that decomposes is the one used, and any other is replaced by the default 64x64x16 block of 32x32 warps |
| Levels.DeriveExactly | lib/MLIR/MatMulOpts/GemmLowering.cpp:1876-1890 | The test accepts exactly the shapes whose tiles split into whole warps, whose warps split into a grid of 32 lanes, and whose rows of A and B tiles split into vectors of four |
| Levels.WarpPlace | lib/MLIR/MatMulOpts/GemmLowering.cpp:1953-1997 | At level 8 thread and register indices are recovered from row and column, so places are distinct and in the tile |
| Levels.WarpCover | lib/MLIR/MatMulOpts/GemmLowering.cpp:1953-1997 | At level 8 every row and column of the block tile has a thread and register indices |
| Levels.WarpLegal | lib/MLIR/MatMulOpts/GemmLowering.cpp:1876-1997 | Every shape `deriveOk` accepts partitions the block tile and its copies |
| LevelTwo.Level2RaceFree | lib/MLIR/MatMulOpts/GemmLowering.cpp:224-312 | Threads of the level 2 kernel never touch each other's cells |
| LevelTwo.Level2ComputesGemm | lib/MLIR/MatMulOpts/GemmLowering.cpp:224-312 | Without epilogue, or with K = 1, level 2 computes the GEMM |
| LevelTwo.Level2Exact | lib/MLIR/MatMulOpts/GemmLowering.cpp:291-305 | Level 2 is right for every arithmetic and schedule exactly without epilogue, with K = 1, or for an empty C |
| LevelOne.Level1 | lib/MLIR/MatMulOpts/GemmLowering.cpp:178-223 | The CPU loops compute the GEMM with its epilogue in C and change nothing else |
| Ladder.RungIs | lib/MLIR/MatMulOpts/GemmLowering.cpp:224-2357 | Levels 7 and 8 have two buffers; levels 6 to 8 load vectors of four and transpose A; each level has these tile sizes, threads and accumulators per thread |
| Ladder.EveryRunComputesGemm | lib/MLIR/MatMulOpts/GemmLowering.cpp:224-2357 | Every interleaving of levels 2 to 8 ends with the GEMM in C and nothing else changed |
| Ladder.LadderExact | lib/MLIR/MatMulOpts/GemmLowering.cpp:224-2357 | Each of levels 2 to 8, at every tile shape it supports, is right for every arithmetic and schedule exactly when BK divides K (at level 2: without epilogue, or with K = 1) or C is empty |
| Ladder.LadderEquivalence | lib/MLIR/MatMulOpts/GemmLowering.cpp:224-2357 | Any two levels under any two schedules agree on every global cell |
| Ladder.Level1AndLadder | lib/MLIR/MatMulOpts/GemmLowering.cpp:178-2357 | Level 1 over buffers leaves in every global cell what any finished run of any suitable level leaves there |
| Ladder.RunLevel | lib/MLIR/MatMulOpts/GemmLowering.cpp:224-2357 | Launching a level terminates with the GEMM |
| EarlyReturn.FlagIffMayReturn | lib/MLIR/MLIRGen/MLIRGen.cpp:1244-1265 | `genStmt` yields a flag exactly when one came in or `stmtMayReturn` holds |
| EarlyReturn.GenCorrect | lib/MLIR/MLIRGen/MLIRGen.cpp:302-399 | Simulation: generated code and direct execution agree on state, order of effects, flag and value, under any incoming flag |
| EarlyReturn.IfCorrect | lib/MLIR/MLIRGen/MLIRGen.cpp:1290-1388 | A lowered `if` runs one branch and joins the two return states |
| EarlyReturn.FunctionCorrect | lib/MLIR/MLIRGen/MLIRGen.cpp:1176-1208 | For all statement trees the function does what direct execution does when a return in a loop ends only the iteration, and returns 0 where that has no value |
| EarlyReturn.EarlyReturnPreserved | lib/MLIR/MLIRGen/MLIRGen.cpp:302-372 | With no live return under a loop the function is direct execution with early exit, with 0 when no return is reached |
| EarlyReturn.ReturnedValue | lib/MLIR/MLIRGen/MLIRGen.cpp:1176-1242 | With no live return under a loop the function returns 0 when direct execution reaches no return or a bare one, and otherwise the value returned |
| EarlyReturn.TerminatedExactly | lib/MLIR/MLIRGen/MLIRGen.cpp:1176-1208 | The generated function ends in a return exactly when it has no result, is the unit entry point, or has a return outside all loops |
| EarlyReturn.EarlyReturnExact | lib/MLIR/MLIRGen/MLIRGen.cpp:1522-1605 | A function is lowered correctly for all expressions and runs, over states that are tapes of future values, exactly when no return under a loop is live (then for all states, by EarlyReturnPreserved); otherwise some run of both ends in different states |
| EarlyReturn.LoopLoweredExactlyWhen | lib/MLIR/MLIRGen/MLIRGen.cpp:1522-1605 | A loop is lowered correctly for all expressions and runs, over such states, exactly when its body has no return |
| EarlyReturn.ReturnInLoopDropped | lib/MLIR/MLIRGen/MLIRGen.cpp:1560-1560 | `for v in 0..1 { return 7 } return 5` returns 7 and its generated code 5 |
| ShortCircuit.VisitExprCorrect | lib/MLIR/MLIRGen/MLIRGen.cpp:627-688 | Generated code leaves the state, after the same effects in order, and the value that evaluating the expression does, runs the right operand of a logical operator exactly when evaluation does, and keeps earlier names |
| LoopIR.RunRenamed | lib/MLIR/Transforms/LoopFusion.cpp:44-44 | Replacing all uses of a name keeps the effect of code in environments that agree |
| LoopIR.RunLocal | lib/MLIR/Utils/Utils.cpp:5-53 | Code changes only what it writes and depends only on the cells it touches |
| LoopFusion.HasMemoryHazards | lib/MLIR/Utils/Utils.cpp:5-87 | The nested scan finds a hazard exactly when, at any depth, a load or store of one loop and one of the other, at least one a store, are on one memref with indices that differ once the second induction variable is renamed to the first (for loops that use neither other's induction variable) |
| LoopFusion.PairFuses | lib/MLIR/Transforms/LoopFusion.cpp:22-52 | Two operations become one loop, the second body after the first with its induction variable renamed, exactly when they are loops with equal bounds without such a hazard; otherwise they stay |
| LoopFusion.ConflictsPinned | lib/MLIR/Utils/Utils.cpp:64-87 | Alignment turns an index that moves in the first loop into one that moves in both |
| LoopFusion.PushPast | lib/MLIR/Transforms/LoopFusion.cpp:41-51 | The second body at one iteration commutes with the first body at all later iterations |
| LoopFusion.FusionPreservesMeaning | lib/MLIR/Transforms/LoopFusion.cpp:33-51 | The fused loop leaves the names and the memory that the two loops leave, for any bounds and trip count |
| LoopFusion.FuseBlock | lib/MLIR/Transforms/LoopFusion.cpp:22-52 | The iterator walk fuses exactly the adjacent pairs of a left-to-right pass, never looking at a fused loop again |
| LoopFusion.FuseAll | lib/MLIR/Transforms/LoopFusion.cpp:17-57 | The pass is that walk over every block, the blocks inside a block first |
| LoopFusion.NestedPairFuses | lib/MLIR/Transforms/LoopFusion.cpp:21-53 | Inside a loop too, two innermost loops become one exactly when they have equal bounds and no hazard |
| LoopFusion.WalkPreservesMeaning | lib/MLIR/Transforms/LoopFusion.cpp:17-57 | The pass over all nested blocks preserves meaning when each fused pair is separable |
| LoopFusion.PassPreservesMeaning | lib/MLIR/Transforms/LoopFusion.cpp:21-53 | The same from a condition on the program before the pass: adjacent loops with equal bounds have names of their own and their conflicting accesses move |
| LoopFusion.FusesThroughScalar | lib/MLIR/Utils/Utils.cpp:73-86 | Two loops that meet in a scalar pass every test, and fusing them changes the result |
| Licm.Collect | lib/MLIR/Transforms/LICM.cpp:26-62 | The operations collected are exactly the pure ones that use neither the induction variable nor a name that some operation of the body, at any depth, defines; each once |
| Licm.HoistOne | lib/MLIR/Transforms/LICM.cpp:33-36 | Moving one invariant operation out keeps memory and all other names, for any trip count including zero |
| Licm.MoveKeeps | lib/MLIR/Transforms/LICM.cpp:33-36 | Each move keeps SSA form, operand order, the operations, and the meaning |
| Licm.Hoist | lib/MLIR/Transforms/LICM.cpp:19-39 | The fixpoint terminates; every pure operation left uses the induction variable or a name defined in the body, none is lost or duplicated, each comes after its operands, and the meaning is kept |
| Licm.HoistInBlock | lib/MLIR/Transforms/LICM.cpp:22-38 | Hoisting is invisible to the surrounding block |
| Licm.HoistInLoop | lib/MLIR/Transforms/LICM.cpp:22-38 | Hoisting inside an enclosing loop hides nothing from outside it |
| Licm.HoistAll | lib/MLIR/Transforms/LICM.cpp:19-39 | The whole pass, innermost loops first: the program means the same, names stay defined once and before their uses, and in every loop at any depth every pure operation left uses its induction variable or a name defined in its body |
| Nests.SingleInnerLoop | lib/MLIR/MatMulOpts/MatMulRecognition.cpp:26-38 | Finds the position of the one loop among noise, exactly when there is one |
| Nests.RootExactly | lib/MLIR/MatMulOpts/MatMulRecognition.cpp:42-46 | A name has root x exactly when it is x or some number of index casts lead to it from x, for x not defined in the code |
| Nests.RootValue | lib/MLIR/MatMulOpts/MatMulRecognition.cpp:42-46 | A name has the value of its root through index casts |
| Nests.Equations | lib/MLIR/MatMulOpts/MatMulRecognition.cpp:113-137 | In SSA code every operation's equation holds at the end, so dataflow can be read off names |
| Nests.DoesGemmIsGemm | lib/MLIR/MatMulOpts/GemmLowering.cpp:178-223 | The GEMM operation's effect on buffers is the GEMM that every lowering computes |
| MatMulMatcher.Identify | lib/MLIR/MatMulOpts/MatMulRecognition.cpp:126-137 | Each load is found by the operand it feeds, exactly when there is one |
| MatMulMatcher.MatchIndices | lib/MLIR/MatMulOpts/MatMulRecognition.cpp:139-169 | In SSA code the index checks succeed exactly when, in one of the two orders, the accesses are A[i, k], B[k, j] and C[i, j] with the indices behind any number of casts, and the store is to that C[i, j] |
| MatMulMatcher.MatchBody | lib/MLIR/MatMulOpts/MatMulRecognition.cpp:81-169 | In SSA code the body is accepted exactly when it has three loads, a multiplication, an addition and a store, once each, that add A[i, k] * B[k, j] to C[i, j] in any operand order and through any index casts, and otherwise only casts, constants, dimensions and poison |
| MatMulMatcher.Recognize | lib/MLIR/MatMulOpts/MatMulRecognition.cpp:69-186 | In SSA code a loop is rewritten exactly when it holds only a loop that holds only a loop with such a body, apart from casts, constants, dimensions and poison |
| MatMulRecognition.BodyStep | lib/MLIR/MatMulOpts/MatMulRecognition.cpp:46-60 | One innermost iteration is one multiply-add into C[i, j] read from memory |
| MatMulRecognition.NestComputes | lib/MLIR/MatMulOpts/MatMulRecognition.cpp:69-169 | Whatever its bounds and steps, a matched nest adds the products it visits, in ascending k, to the elements it visits and changes nothing else |
| MatMulRecognition.RecognitionSound | lib/MLIR/MatMulOpts/MatMulRecognition.cpp:171-184 | A nest that visits everything does what the GEMM operation does |
| MatMulAliasing.RecognitionExact | lib/MLIR/MatMulOpts/MatMulRecognition.cpp:69-186 | For every arithmetic and memory, any bounds and any equal memrefs, exactly when every product of every element of C is visited and none reads a changed element of C |
| MatMulAliasing.FreshSizes | lib/MLIR/MatMulOpts/MatMulRecognition.cpp:139-169 | Over whole matrices the second part fails exactly when C stands for A and has several columns, or for B and has several rows, and there are products |
| MatMulRecognition.PlainBounds | lib/MLIR/MatMulOpts/MatMulRecognition.cpp:46-60 | Loops from 0 by 1 up to M, N and K visit everything and stay inside the matrices |
| MatMulRecognition.NestIsGemm | lib/MLIR/MatMulOpts/GemmLowering.cpp:178-223 | Memory with the GEMM of the recognised operands, as level 1 leaves it, has in C what the nest leaves there |
| MatMulRecognition.RecognitionComposes | lib/MLIR/MatMulOpts/GemmLowering.cpp:224-2357 | Every finished run of levels 2 to 8 leaves in C what the recognised nest leaves there, and the nest touches nothing else |
| EpilogueMatcher.Collect | lib/MLIR/MatMulOpts/GemmEpilogueFusion.cpp:84-118 | Collecting succeeds exactly when the body has no other operations and at most one add, maximum and store |
| EpilogueMatcher.ZeroOperand | lib/MLIR/MatMulOpts/GemmEpilogueFusion.cpp:45-51 | Finds the zero constant the sum is compared with, in either operand order, exactly when there is one |
| EpilogueMatcher.SplitLoads | lib/MLIR/MatMulOpts/GemmEpilogueFusion.cpp:131-139 | Tells the loads of C and of the bias apart by their indices |
| EpilogueMatcher.MatchConsumer | lib/MLIR/MatMulOpts/GemmEpilogueFusion.cpp:84-145 | In SSA code the body is accepted exactly when it stores max(C[i, j] + bias[j], 0) to C[i, j], with a zero of either sign, in any operand orders and through any index casts, and otherwise has only casts, constants, dimensions and poison |
| EpilogueFusion.BodyStep | lib/MLIR/MatMulOpts/GemmEpilogueFusion.cpp:84-145 | One iteration of a matched consumer is C[i, j] = max(C[i, j] + bias[j], zero), in either operand orders |
| EpilogueFusion.ConsumerComputes | lib/MLIR/MatMulOpts/GemmEpilogueFusion.cpp:69-145 | Whatever its bounds and steps, a matched consumer finishes the elements it visits and changes nothing else |
| EpilogueFusion.FusionPreservesMeaning | lib/MLIR/MatMulOpts/GemmEpilogueFusion.cpp:147-158 | Under that condition the fused operation leaves what the GEMM followed by its consumer leaves |
| EpilogueFusion.FusionExact | lib/MLIR/MatMulOpts/GemmEpilogueFusion.cpp:69-159 | For every arithmetic and memory, and any bounds, exactly when visited elements have a plain GEMM and a zero equal to +0.0, and the others have this epilogue already |
| EpilogueFusion.SoundCases | lib/MLIR/MatMulOpts/GemmEpilogueFusion.cpp:45-51 | That is: everything is visited and the GEMM was plain with +0.0, or nothing is visited and the GEMM had this epilogue, or C is empty |
| EpilogueFusion.PlainFusionExact | lib/MLIR/MatMulOpts/GemmEpilogueFusion.cpp:69-159 | For a consumer from 0 by 1 over all of C: exactly when the GEMM was plain and the zero is +0.0, or C is empty |
| EpilogueFusion.ConsumerIsFused | lib/MLIR/MatMulOpts/GemmLowering.cpp:99-111 | Memory with the fused GEMM, as level 1 leaves it, has in C what the GEMM and its consumer leave there |
| EpilogueFusion.FusionComposes | lib/MLIR/MatMulOpts/GemmLowering.cpp:224-2357 | Every finished run of levels 3 to 8 of the fused operation leaves in C what the GEMM and its consumer leave |
| Syntax.PrecedenceExactly | lib/Parse/Parser.cpp:24-67 | The precedence numbers order tokens as the twelve operator classes do, with names and numbers loosest, and a token has one exactly when it goes on with an expression |
| Syntax.WriteCanonical | lib/Parse/Parser.cpp:196-222 | Any expression can be written as a canonical tree that stands for it |
| Syntax.WriteTight | lib/Parse/Parser.cpp:196-222 | What is written has no pair of parentheses that could be left out |
| Syntax.WritableExactly | lib/Parse/Parser.cpp:142-271 | The expressions that can be written are exactly those that some canonical tree without holes stands for |
| ParserSpec.TypeSound | lib/Parse/Parser.cpp:394-463 | A parsed type's tokens are the ones consumed |
| ParserSpec.TypeComplete | lib/Parse/Parser.cpp:394-463 | A type's tokens parse back to it |
| ParserSpec.PrimarySound | lib/Parse/Parser.cpp:142-240 | A parsed primary is canonical and yields the tokens consumed |
| ParserSpec.ExpressionSound | lib/Parse/Parser.cpp:242-271 | A parse at precedence m consumes a canonical tree of operators at least m and stops at a token that binds less or cannot follow |
| ParserSpec.ExpressionComplete | lib/Parse/Parser.cpp:242-271 | A canonical tree is what parsing its tokens gives, before any token that cannot extend it |
| ParserSpec.ParsesExactly | lib/Parse/Parser.cpp:242-271 | A tree without holes comes out exactly when it is canonical, its tokens stand there, and the next token does not continue it |
| ParserSpec.ParsesWhole | lib/Parse/Parser.cpp:242-271 | A whole expression comes out exactly when it is canonical, its tokens stand there, and the next token is neither an operator, a name or a number, nor turns the last name into a call, nor casts the last operand |
| ParserSpec.Grouping | lib/Parse/Parser.cpp:24-67 | Of two operators between three operands the first groups first exactly when its class, in the list from tightest to loosest, is not after the other's |
| ParserSpec.Unambiguous | lib/Parse/Parser.cpp:24-67 | Two canonical trees with the same tokens are equal |
| ParserSpec.RoundTrip | lib/Parse/Parser.cpp:196-222 | Writing an expression and parsing the text gives the expression back and consumes all of it |
| Parser.Parser.Advance | lib/Parse/Parser.cpp:75-79 | The cursor moves one token, except at the end |
| Parser.Parser.ParseType | lib/Parse/Parser.cpp:394-463 | Result and cursor are those of the specification |
| Parser.Parser.ParsePrimary | lib/Parse/Parser.cpp:142-240 | Result and cursor are those of the specification, a null operand of `&` included |
| Parser.Parser.ParseExpr | lib/Parse/Parser.cpp:242-271 | Result and cursor of the climbing loop are those of the specification |
| FormatStrings.ScanRender | lib/Sema/TypeChecker.cpp:9-32 | Doubling braces and scanning gives the same text and holes back |
| FormatStrings.RenderScan | lib/Sema/TypeChecker.cpp:9-32 | A string that scans is the rendering of what it scans to |
| FormatStrings.CountFormatArguments | lib/Sema/TypeChecker.cpp:9-32 | Accepts exactly the strings that have a meaning, and counts their holes |
| FormatStrings.VisitMacroCall | lib/MLIR/MLIRGen/MLIRGen.cpp:1046-1083 | Emits the events of the specification on every string, malformed ones and missing arguments included |
| FormatStrings.EmittedIsPrinted | lib/MLIR/MLIRGen/MLIRGen.cpp:1046-1083 | On accepted suffixes the generator's events are the literal text and the arguments of the meaning |
| FormatStrings.PrintedShows | lib/MLIR/MLIRGen/MLIRGen.cpp:1046-1083 | The events of a format write its literal text with the holes filled, and print no empty text |
| FormatStrings.CheckedCallPrints | lib/Sema/TypeChecker.cpp:711-737 | A checked call prints its text and each argument exactly once, in order: what it writes is the format with its holes filled |
| FormatStrings.WrittenPrints | lib/MLIR/MLIRGen/MLIRGen.cpp:1046-1083 | Every list of text and holes can be written so that it is accepted and prints itself |
| DeviceDispatch.LatchTellsFailure | lib/Runtime/CudaRuntimeWrappers.cpp:126-137 | A clear latch stays clear exactly while every call succeeds, and a set one keeps the first failure |
| DeviceDispatch.OnCpuExactly | lib/MLIR/MatMulOpts/DeviceDispatch.cpp:123-141 | The CPU GEMM puts its meaning on the four buffers into C and keeps the others |
| DeviceDispatch.Host.ReportCudaError | lib/Runtime/CudaRuntimeWrappers.cpp:126-137 | The latch keeps its value, or takes the first failure |
| DeviceDispatch.Host.CudaIsAvailable | lib/Runtime/CudaRuntimeWrappers.cpp:230-273 | True exactly when some device answers and is capable; then the first such device is chosen and the latch is clear |
| DeviceDispatch.Host.OnCuda | lib/MLIR/MatMulOpts/DeviceDispatch.cpp:123-131 | With a clear latch before and after, the buffer holds the GEMM |
| DeviceDispatch.Host.DispatchAuto | lib/MLIR/MatMulOpts/DeviceDispatch.cpp:123-141 | Memory ends as after the CPU GEMM, whatever the device does |
| DeviceDispatch.Host.DispatchCuda | lib/MLIR/MatMulOpts/DeviceDispatch.cpp:142-155 | Aborts exactly when no device is available or a call fails, and otherwise ends as after the CPU GEMM |
| DeviceDispatch.Host.Run | lib/MLIR/MatMulOpts/DeviceDispatch.cpp:82-158 | A whole program ends with the all-CPU result in cpu and auto mode; in cuda mode too, or it aborts at the first failure |
| TypeInterning.Canonical | lib/AST/ASTContext.cpp:25-55 | Handles are equal exactly when the types are structurally equal |
| TypeInterning.ShapeKept | lib/AST/ASTContext.cpp:25-55 | Creating types leaves earlier handles with their meaning |
| TypeInterning.InternedOnce | lib/AST/ASTContext.cpp:25-55 | Two constructor calls, at any times, give the same handle exactly when they ask for the same structure |
| TypeInterning.ASTContext.GetPointerType | lib/AST/ASTContext.cpp:25-31 | Returns the one type object with these parts, adding it only if it is new |
| TypeInterning.ASTContext.GetReferenceType | lib/AST/ASTContext.cpp:33-39 | The same for references |
| TypeInterning.ASTContext.GetFunctionType | lib/AST/ASTContext.cpp:41-48 | The same for function types with parameter lists |
| TypeInterning.ASTContext.GetArrayType | lib/AST/ASTContext.cpp:50-56 | The same for arrays with their size |
| TypeInterning.ASTContext.AreTypesCompatible | lib/AST/ASTContext.cpp:58-63 | Pointer comparison decides structural equality of non-null types |
| Arena.ASTAllocator.NewSlab | include/trsc/AST/ASTAllocator.h:22-36 | Adds one slab, of the size requested or the current step if that is more, keeps the byte total, and doubles the step from 4096 up to 256 KiB |
| Arena.ASTAllocator.Allocate | include/trsc/AST/ASTAllocator.h:45-61 | The block is aligned, inside one slab and apart from every earlier block; the second attempt succeeds |
| Arena.ApartExactly | include/trsc/AST/ASTAllocator.h:45-61 | Blocks and slabs are apart exactly when no address is in both |
| Arena.InsideExactly | include/trsc/AST/ASTAllocator.h:45-61 | A block with addresses is inside a slab exactly when the slab has them all |
| Arena.BlockAdded | include/trsc/AST/ASTAllocator.h:45-61 | A block at or after the cursor of the last slab overlaps no earlier block |
| SourceLines.OnLineExactly | lib/Basic/SourceManager.cpp:57-64 | The fast-path test holds of exactly one line, the one that counting newlines gives |
| SourceLines.SourceManager.BuildLineStartCache | lib/Basic/SourceManager.cpp:39-55 | The cache holds all line starts in order |
| SourceLines.SourceManager.LowerBound | lib/Basic/SourceManager.cpp:76-76 | The first line that starts at the position or later |
| SourceLines.BoundLine | lib/Basic/SourceManager.cpp:76-83 | Stepping back from the lower bound gives the line of the position |
| SourceLines.SourceManager.GetLocation | lib/Basic/SourceManager.cpp:57-87 | Line and column count newlines and characters from the buffer start, whatever was asked before |

## Left out

- Device staging, copies back to the host, level 9 and the autotuning constants: the kernels start from and end in device memory.
- Vector loads and stores are modelled lane by lane, which allows more interleavings than one vector access does.
- The initial contents of shared memory are arbitrary, and the grid is numbered linearly as the lowering does.
- Floating-point rounding, NaN and contraction: the element type is uninterpreted.
- LoopFusion.FusionPreservesMeaning: only one direction; whether fusing accesses that do not move is harmless depends on the values computed.
- LoopFusion.WalkPreservesMeaning: calls, allocations and loops with results are not part of the IR.
- Licm.HoistAll: loops without results; only the operations of a loop's own body move, as in the pass.
- Licm.Hoist: operations with regions are never treated as hoistable; the pass treats pure ones as hoistable without looking inside them.
- MatMulRecognition.RecognitionSound: distinct memref values do not alias anywhere in the loop IR.
- MatMulRecognition.RecognitionComposes: C apart from A and B, because a launch has them in cells of their own.
- KernelCorrect.KTailExact: N a multiple of the vector width, because reads past a row of B are not modelled.
- EpilogueMatcher.MatchConsumer: the search for the loop after the GEMM, past noise, is not modelled.
- EarlyReturn.EarlyReturnExact: functions that would end without a return (a result, no flag, not the entry point) are not generated and not covered.
- EarlyReturn.EarlyReturnPreserved: expressions are opaque there, and their operators are lowered in `ShortCircuit`; loops run on fuel, and both sides run out together.
- ShortCircuit.VisitExprCorrect: what a strict operator computes is uninterpreted, a boolean is any non-zero value, and operands that fail to generate are not modelled.
- Parser.Parser.ParsePrimary: calls, macros, array accesses and array literals end the modelled parse with the outcome Outside; statements, source ranges and diagnostics are not modelled.
- Parser.Parser.ParseType: the branches of the parser's type, primary and operand cases are methods of their own.
- Parser.Parser.ParseExpr: the numeric values of literals are identities.
- DeviceDispatch.Host.OnCuda: a run without a failed driver call is taken to compute the GEMM; that each wrapper reports its result is not modelled.
- TypeInterning.ASTContext.AreTypesCompatible: sizes, alignments and spellings of types, and `canConvert`, are not modelled.
- Arena.ASTAllocator.Allocate: memory given by the system is never null and never overlaps, and sizes do not overflow.
- SourceLines.SourceManager.GetLocation: positions are offsets into the buffer, and line numbers do not overflow.
- Loop tiling and unrolling, the lexer, name resolution, type checking, the CUDA wrappers other than the error latch, the print runtime and the driver.
