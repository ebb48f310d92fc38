# RT-Thread 2.1 kernel and FinSH shell, verified

This project models the parts of RT-Thread 2.1 that depend on many functions agreeing, and proves what they promise.

- **Memory allocators**: the first-fit heap of `mem.c`, the two rings of `memheap.c`, the page list and slab zones of `slab.c`, and the small heap of the FinSH shell.
- **Kernel**: ready queues with the priority bitmap, suspend, resume and timeout, time slices, hard timers across tick wrap-around, and the mutex with priority inheritance, event, mailbox and message queue.
- **FinSH**: the recursive-descent parser, the address/value pass, the code generator and the stack machine, up to one theorem from the tokens of a line to its value.

## How the model is built

- What an operation means is a function on values; the lemmas about runs, inverses and order are about those functions.
- Where the source changes fields, lists or memory in place, a class does the same, and each method is proved against the function.
- The kernel's concurrency is a state machine. A step is one stretch with interrupts off, and steps of different threads, timeouts and ticks interleave freely. Calls that enable interrupts in between are several steps.
- Words are 32 bits wide where that matters: ticks, waiting times, shell values and addresses, the bitmap words. `mem.c` and `memheap.c` are in units of four bytes, the alignment of the configuration.
- Priorities: a lower number is more urgent; both the 32-level and the 256-level bitmap are modelled, and any number of timer rows.

| files | what they model |
|---|---|
| `Finsh*.dfy` | `components/finsh`: words, trees and evaluation, machine, compiler, shell, parser, whole lines, code sizes, and the heap |
| `Layout.dfy`, `SmallMem.dfy`, `SmallHeap.dfy` | `mem.c` as rows of blocks, as calls, and on the words of the heap |
| `MemRing.dfy`, `MemHeap.dfy` | `memheap.c` |
| `PageList.dfy`, `PageHeap.dfy`, `SlabSizes.dfy`, `Slab.dfy` | `slab.c` |
| `WaitList.dfy`, `Mailbox.dfy`, `MessageQueue.dfy`, `EventSet.dfy`, `Mutex.dfy` | `ipc.c` |
| `Timers.dfy`, `TimerRows.dfy` | `timer.c` |
| `FirstBit.dfy`, `PriorityBitmap.dfy`, `ReadyQueues.dfy`, `Scheduler.dfy` | `scheduler.c`, `thread.c`, `__rt_ffs` |
| `RoundRobin.dfy`, `TimeSlices.dfy` | the time slice in `clock.c` |
| `Lists.dfy`, `Options.dfy`, `Quotients.dfy` | shared |

`dafny verify dfyconfig.toml` checks everything.

## Findings

Properties that one would expect and that the code does not have, each with an input and with the exact condition.

- A timer started for k ticks can fire late: `rt_timer_start` reads the tick with interrupts on, between its two regions (rtt2.1/src/timer.c:307-324). Input: `Timers.LateLink`. Condition: `Timers.FiresOnTimeIff`, on time exactly when fewer than k ticks pass between the reading and the linking.
- A timer can be listed twice: a second start of it between the regions of a first links it, and the first then links it again (rtt2.1/src/timer.c:307-324). Input: `Timers.DoubleStart`. Condition: `Timers.StartInPieces`, right exactly when nothing in the gap linked the timer and left it linked; `Timers.StepKeeps` for each step.
- A start can move the due time of a listed timer, so that the list is out of order and another timer is not seen in time (rtt2.1/src/timer.c:314-321). Input: `Timers.OtherLate`. Condition: `Timers.ReadKeeps`.
- The check does not end for a periodic timer of no ticks (rtt2.1/src/timer.c:497-540). Input: `Timers.NeverEnds`. Condition, with idle callbacks: `Timers.CheckEndsIff`.
- A thread can be queued twice: `rt_thread_resume` tests, unlinks and inserts in three separate stretches (rtt2.1/src/thread.c:636-656). Input: `ReadyQueues.DoubleResume`. Condition: `ReadyQueues.ResumeInPieces`, right exactly when no step in the gap made the thread ready and left it so, or put it on a wait list and left it there; `ReadyQueues.ResumeTested` for the gap before the first region, `ReadyQueues.InsertKeepsIff` and `ReadyQueues.UnlinkKeepsIff` for each region.
- The 256th take of a mutex by its owner wraps the hold count (rtt2.1/src/ipc.c:667-671). Input: `Mutex.OverflowReached`. Condition: `Mutex.StepKeeps`.
- The owner of a mutex stays at a raised priority after the thread that raised it has timed out (rtt2.1/src/ipc.c:703-752). Input: `Mutex.StaysRaised`. Condition: `Mutex.StepRight`; the exact priority is `Mutex.OwnerPriority`.
- `lfree` need not be the lowest free block after a reallocation that cuts a block short (rtt2.1/src/mem.c:431-455). Input: `SmallMem.LowestLost`. Condition: `SmallMem.ReallocKeeps`.
- A request that fits the last free block exactly is refused (rtt2.1/src/mem.c:279-291). Input: `SmallMem.ExactFitRefused`. Condition: `SmallMem.LimitRefuses`.
- `rt_memheap_alloc` refuses a request for all the words that are free, also when one block has them (rtt2.1/src/memheap.c:160). Input: `MemHeap.Heap.WholeRefused`. Condition: `MemHeap.Heap.ExactFitRefused`.
- Grouping parentheses are never accepted at the start of an operand, since they are taken for a cast (rtt2.1/components/finsh/finsh_parser.c:675-700): `FinshParser.GroupingRefused`. Condition for what can be written at all: `FinshParser.LineRoundTripIff`, exactly the lines that fit the node table and have no operand that needs parentheses.
- Extra semicolons can swallow a token (rtt2.1/components/finsh/finsh_parser.c:975-996). Input: `FinshParser.NameHidden`. Condition: `FinshParser.ExtraSemicolons` and `FinshParser.EmptyStatement`, the token behind them is lost exactly if their number is odd; `FinshParser.SpacedRoundTrip` for whole lines, where even numbers suffice, and `FinshParser.OddHarmless` for a line whose tree comes out right with an odd one.
- A line that fits the node table can outgrow the text segment (rtt2.1/components/finsh/finsh_compiler.c:903-937). Input: `FinshSizes.EightIncrements`. Condition: `FinshSizes.LineLengthIs`, it fits exactly when the lengths of its nodes add up to at most 128 bytes.

## Model

| member | source | states |
|---|---|---|
| `FinshLine.PrintedLineRuns` | rtt2.1/components/finsh/shell.c:287-330 | a line of supported statements that needs no grouping parentheses and fits the 16 nodes, written as tokens, is parsed, compiled and run to the value of its last statement, alone on the stack, with the memory direct evaluation leaves; it faults exactly when evaluation has no result |
| `FinshLine.ParsedLineRuns` | rtt2.1/components/finsh/shell.c:287-330 | whatever the tokens are, if they parse the tree stands for some statements, and if those are supported the emitted bytes do what evaluating them does; an empty line changes nothing |
| `FinshCompiler.CompileCorrect` | rtt2.1/components/finsh/finsh_compiler.c:43-757 | for every supported expression, stack with room and memory: running its code equals direct evaluation, value pushed on an unchanged stack, memory changed exactly as evaluation does |
| `FinshCompiler.LocateCorrect` | rtt2.1/components/finsh/finsh_compiler.c:759-800 | an assignable expression compiled as an address pushes its location |
| `FinshCompiler.BinaryCorrect` | rtt2.1/components/finsh/finsh_compiler.c:43-757 | the ten binary operators, operands left to right |
| `FinshCompiler.AssignCorrect` | rtt2.1/components/finsh/finsh_compiler.c:43-757 | assignment to a variable or through a pointer, which leaves the stored value |
| `FinshCompiler.PreCorrect` | rtt2.1/components/finsh/finsh_compiler.c:43-757 | ++x and --x store and leave the new value |
| `FinshCompiler.PostCorrect` | rtt2.1/components/finsh/finsh_compiler.c:43-757 | x++ and x-- store the new value and leave the old one |
| `FinshCompiler.CallCorrect` | rtt2.1/components/finsh/finsh_compiler.c:43-757 | a system call gets its arguments in order and its result replaces them |
| `FinshCompiler.TreeCode` | rtt2.1/components/finsh/finsh_compiler.c:43-901 | marking the tree as address or value and generating code from it yields the code of the expression, then that of its siblings |
| `FinshCompiler.MarkedType` | rtt2.1/components/finsh/finsh_compiler.c:759-901 | every node gets the data type of its first operand |
| `FinshCompiler.SizeListIsNodeCount` | rtt2.1/components/finsh/finsh_node.c:45-63 | the nodes of a list of expressions are the nodes of its tree |
| `FinshVm.DecodeBytes` | rtt2.1/components/finsh/finsh_ops.c:42-441 | decoding the bytes of an instruction gives the instruction and its length back |
| `FinshVm.ExecAssembled` | rtt2.1/components/finsh/finsh_vm.c:47-72 | assembled bytes do what their instructions do, and then the rest of the text runs |
| `FinshVm.ExecNoops` | rtt2.1/components/finsh/finsh_vm.c:47-72 | the cleared part of the text segment does nothing |
| `FinshWords.TruncatingDivision` | rtt2.1/components/finsh/finsh_ops.c:113-141 | signed division truncates towards zero: quotient and remainder rebuild the dividend, the remainder has its sign |
| `FinshWords.ApplyComputes` | rtt2.1/components/finsh/finsh_ops.c:42-295 | every binary operator on 32-bit longs: sum and difference undo each other, the product is that of the signed values modulo 2^32, quotient and remainder truncate, and/or/xor hold for every bit, shifts move every bit and keep the sign; no result exactly where C has none |
| `FinshWords.ComputesOnce` | rtt2.1/components/finsh/finsh_ops.c:42-295 | no other word meets that description |
| `FinshWords.LittleEndian` | rtt2.1/components/finsh/finsh_ops.c:317-325 | byte i of an operand has the weight of the i-th power of 256 |
| `FinshTree.BinaryMeans` | rtt2.1/components/finsh/finsh_ops.c:42-295 | an operator on expressions computes that of their values, the left one evaluated first |
| `FinshTree.AssignMeans` | rtt2.1/components/finsh/finsh_ops.c:428-435 | after an assignment the target holds the value and no other byte changed |
| `FinshTree.StepMeans` | rtt2.1/components/finsh/finsh_compiler.c:373-715 | ++ and -- leave one more or one less; the prefix forms give the new value, the postfix forms the old one |
| `FinshTree.LowerOnce` | rtt2.1/components/finsh/finsh_parser.c:897-911 | no two expressions have the same tree |
| `FinshVm.Limits` | rtt2.1/components/finsh/finsh.h:26-33 | the stack has 64 slots and a call 16 arguments |
| `FinshWords.DecodeEncode` | rtt2.1/components/finsh/finsh_ops.c:317-325 | a 32-bit operand survives being written byte by byte and read back |
| `FinshWords.LoadAfterStore` | rtt2.1/components/finsh/finsh_ops.c:428-435 | a stored word is loaded back and the other bytes stay |
| `FinshShell.LineCorrect` | rtt2.1/components/finsh/finsh_compiler.c:903-937 | every statement but the last leaves the stack empty, the last leaves its value in slot 0 |
| `FinshShell.SegmentCorrect` | rtt2.1/components/finsh/finsh_vm.c:47-72 | the whole text segment, code and cleared rest, runs to that value |
| `FinshShell.SixteenNodesFit` | rtt2.1/components/finsh/finsh.h:26-33 | sixteen nodes keep every statement within the 64 stack slots |
| `FinshShell.LineRuns` | rtt2.1/components/finsh/finsh_vm.c:47-72 | both of the above for any line that fits the node table |
| `FinshShell.Shell.CompileTree` | rtt2.1/components/finsh/finsh_compiler.c:43-757 | writes exactly the bytes of the generated code at the program counter and nothing else |
| `FinshShell.Shell.EmitNode` | rtt2.1/components/finsh/finsh_compiler.c:43-757 | the switch on the node type writes what the node emits |
| `FinshShell.Shell.EmitAssign` | rtt2.1/components/finsh/finsh_compiler.c:311-371 | the assignment node writes its store and its load |
| `FinshShell.Shell.EmitStep` | rtt2.1/components/finsh/finsh_compiler.c:43-757 | the ++ and -- nodes write theirs |
| `FinshShell.Shell.CompilerRun` | rtt2.1/components/finsh/finsh_compiler.c:903-937 | the text segment is the code of the line followed by zeros, and slot 0 is cleared |
| `FinshShell.Shell.CompileStatements` | rtt2.1/components/finsh/finsh_compiler.c:915-934 | the loop over siblings compiles each statement alone, with a pop between two |
| `FinshShell.Shell.OpBinary` | rtt2.1/components/finsh/finsh_ops.c:42-295 | the two topmost slots are replaced by what the operator computes, by the laws of FinshWords |
| `FinshShell.Shell.OpStore` | rtt2.1/components/finsh/finsh_ops.c:428-435 | the value is taken off and stored, the address stays |
| `FinshShell.Shell.OpCall` | rtt2.1/components/finsh/finsh_ops.c:444-480 | arguments come off the stack last to first, then the function, and the result is pushed |
| `FinshShell.Shell.Execute` | rtt2.1/components/finsh/finsh_ops.c:42-441 | one entry of the operation table does what the decoded instruction does |
| `FinshShell.Shell.VmRun` | rtt2.1/components/finsh/finsh_vm.c:47-72 | the fetch loop over the 128 bytes ends, in the state the byte semantics gives |
| `FinshShell.Shell.RunLine` | rtt2.1/components/finsh/shell.c:287-330 | compiling and running a line leaves its value in slot 0 and its memory effect |
| `FinshShell.CountSiblings` | rtt2.1/components/finsh/finsh_compiler.c:43-757 | counts the arguments of a call |
| `FinshSizes.CodeLength` | rtt2.1/components/finsh/finsh_compiler.c:43-757 | the code of a supported expression has exactly the length its node kinds say |
| `FinshSizes.LineLengthIs` | rtt2.1/components/finsh/finsh_compiler.c:903-937 | so has the code of a line, which fits the text segment exactly when that sum is at most 128 |
| `FinshSizes.EightIncrements` | rtt2.1/components/finsh/finsh_compiler.c:903-937 | eight x++ fill the node table but need 191 bytes |
| `FinshParser.ParsePrinted` | rtt2.1/components/finsh/finsh_parser.c:442-857 | parsing at the level of an expression or below takes exactly the tokens it was printed as and builds its tree, with C precedence and associativity |
| `FinshParser.Precedence` | rtt2.1/components/finsh/finsh_parser.c:467-666 | for every two operators, the one higher in the table of C takes the middle operand, the left one if they are in one row |
| `FinshParser.SignMinus` | rtt2.1/components/finsh/finsh_parser.c:710-745 | a minus in front of an operand stands for 0 minus the operand |
| `FinshParser.SignPlus` | rtt2.1/components/finsh/finsh_parser.c:710-745 | a plus in front of an operand does nothing |
| `FinshParser.GroupedPrimary` | rtt2.1/components/finsh/finsh_parser.c:814-857 | at the level of primaries an expression in parentheses is itself, if the parenthesis is closed |
| `FinshParser.BadEndsLine` | rtt2.1/components/finsh/finsh_parser.c:916-935 | a token that is none ends the line |
| `FinshParser.LineRoundTrip` | rtt2.1/components/finsh/finsh_parser.c:916-998 | a printed line parses back to the tree it was printed from, for any line that fits the node table |
| `FinshParser.LineRoundTripIff` | rtt2.1/components/finsh/finsh_parser.c:442-998 | a printed line parses back to its tree if and only if no operand of it needs parentheses and it fits the node table |
| `FinshParser.AcceptedIff` | rtt2.1/components/finsh/finsh_parser.c:442-998 | tokens without signs and empty statements are accepted if and only if they are such a line printed |
| `FinshParser.ParsedStands` | rtt2.1/components/finsh/finsh_parser.c:442-857 | every tree the parser builds, from any tokens, is the tree of an expression and takes one node entry per node; if no operand starts with a sign, printing that expression gives back the tokens |
| `FinshParser.LineStands` | rtt2.1/components/finsh/finsh_parser.c:916-998 | the same of a line |
| `FinshParser.ExtraSemicolons` | rtt2.1/components/finsh/finsh_parser.c:975-996 | behind a statement, any number of extra semicolons in front of any tokens: an even number does nothing, an odd number swallows the next token |
| `FinshParser.EmptyStatement` | rtt2.1/components/finsh/finsh_parser.c:950-996 | so a statement followed by them chains exactly what is parsed behind an even number, or behind the swallowed token |
| `FinshParser.SpacedRoundTrip` | rtt2.1/components/finsh/finsh_parser.c:916-998 | a printed line with extra semicolons parses to the tree of its statements if every statement but the last has an even number of them |
| `FinshParser.NameHidden` | rtt2.1/components/finsh/finsh_parser.c:975-996 | one extra semicolon between two names: the second is not in the tree |
| `FinshParser.OddHarmless` | rtt2.1/components/finsh/finsh_parser.c:710-745 | for a whole line the parity is not necessary: a swallowed 0 in front of a minus comes back as the 0 of the sign |
| `FinshParser.GroupingRefused` | rtt2.1/components/finsh/finsh_parser.c:675-700 | no expression starts with a parenthesis, which is taken for a cast |
| `FinshParser.Parser.NextToken` | rtt2.1/components/finsh/finsh_token.c:81-87 | the next token, or the one given back |
| `FinshParser.Parser.Replay` | rtt2.1/components/finsh/finsh_token.h:75-76 | the last token comes again |
| `FinshParser.Parser.MakeNode` | rtt2.1/components/finsh/finsh_parser.c:897-911 | a node over its operands takes a free entry, or fails without one |
| `FinshParser.Parser.AssignExpr` | rtt2.1/components/finsh/finsh_parser.c:442-462 | agrees with the parsing function in tree, tokens left and entries left, or fails with it |
| `FinshParser.Parser.BinaryExpr` | rtt2.1/components/finsh/finsh_parser.c:467-666 | the loops of the six operator levels agree with it |
| `FinshParser.Parser.UnaryExpr` | rtt2.1/components/finsh/finsh_parser.c:675-749 | the prefix operators agree with it |
| `FinshParser.Parser.PostfixOperators` | rtt2.1/components/finsh/finsh_parser.c:758-806 | the loop over postfix operators and calls agrees with it |
| `FinshParser.Parser.PrimaryExpr` | rtt2.1/components/finsh/finsh_parser.c:814-857 | names, numbers and parentheses agree with it |
| `FinshParser.Parser.ParamList` | rtt2.1/components/finsh/finsh_parser.c:864-887 | the arguments of a call agree with it |
| `FinshParser.Parser.Line` | rtt2.1/components/finsh/finsh_parser.c:916-998 | a line agrees with it |
| `FinshBlocks.AllocateGaps` | rtt2.1/components/finsh/finsh_heap.c:73-110 | taking the front of a free block turns the gaps between allocated blocks into the new free list |
| `FinshBlocks.ReleaseGaps` | rtt2.1/components/finsh/finsh_heap.c:115-131 | inserting a released block in the free list and merging it gives exactly the gaps that are left |
| `FinshBlocks.EveryByteOnce` | rtt2.1/components/finsh/finsh_heap.c:73-131 | every byte of the heap belongs to exactly one block, allocated or free, with headers of eight bytes |
| `FinshBlocks.ReleaseUndoesAllocate` | rtt2.1/components/finsh/finsh_heap.c:73-131 | releasing what was just allocated restores the free list |
| `FinshHeap.GapsTop` | rtt2.1/components/finsh/finsh_heap.c:166-203 | some free block always lies above every allocated one: the unstated reason why inserting a block overwrites its stale link |
| `FinshHeap.Heap.constructor` | rtt2.1/components/finsh/finsh_heap.c:55-68 | one free block |
| `FinshHeap.Heap.Insert` | rtt2.1/components/finsh/finsh_heap.c:166-203 | a block goes to its place by address |
| `FinshHeap.Heap.Remove` | rtt2.1/components/finsh/finsh_heap.c:205-230 | a block leaves a list |
| `FinshHeap.Heap.Split` | rtt2.1/components/finsh/finsh_heap.c:232-246 | a block is cut in two |
| `FinshHeap.Heap.Merge` | rtt2.1/components/finsh/finsh_heap.c:248-298 | a block joins the neighbours it touches |
| `FinshHeap.Heap.Free` | rtt2.1/components/finsh/finsh_heap.c:115-131 | the block leaves the allocated list, both lists keep tiling the heap |
| `FinshHeap.Heap.Collect` | rtt2.1/components/finsh/finsh_heap.c:133-161 | exactly the blocks no variable points to are released |
| `FinshHeap.KeptLength` | rtt2.1/components/finsh/finsh_heap.c:133-161 | a block survives collection, with its length, exactly if some variable points to it |
| `FinshHeap.FirstFitMeans` | rtt2.1/components/finsh/finsh_heap.c:73-110 | the search takes a block long enough, before which none is, and fails only if none is |
| `FinshHeap.Heap.Allocate` | rtt2.1/components/finsh/finsh_heap.c:73-110 | the first block longer than needed, or after collecting the first that is long enough, or nothing |
| `SmallMem.RunKeeps` | rtt2.1/src/mem.c:136-174 | in every run of malloc, realloc and free the blocks tile the heap, no two neighbours are free, used_mem is the words of used blocks and lfree is a free block or the end; lfree is lowest if no reallocation strands a block |
| `SmallMem.RunSteps` | rtt2.1/src/mem.c:241-560 | a run makes every one of its calls in turn |
| `SmallMem.FoundIff` | rtt2.1/src/mem.c:506-536 | a block is found by its pointer exactly if it is in use |
| `SmallMem.StepKeeps` | rtt2.1/src/mem.c:246-559 | one call keeps lfree lowest exactly when it does not cut a block short below it |
| `SmallMem.WithoutRealloc` | rtt2.1/src/mem.c:246-375 | malloc and free alone never do that |
| `SmallMem.MallocKeeps` | rtt2.1/src/mem.c:246-375 | allocation keeps the heap valid and lfree lowest |
| `SmallMem.FreeKeeps` | rtt2.1/src/mem.c:505-559 | so does release |
| `SmallMem.ReallocKeeps` | rtt2.1/src/mem.c:386-467 | so does reallocation, lfree staying lowest exactly unless a block is cut short below it |
| `SmallMem.ShrinkKeepsLowest` | rtt2.1/src/mem.c:431-455 | the exact condition for a block cut short |
| `SmallMem.LowestLost` | rtt2.1/src/mem.c:431-455 | a heap of 20 words where malloc and then realloc lose it |
| `SmallMem.MallocFirstFit` | rtt2.1/src/mem.c:279-291 | allocation takes the lowest block from lfree on that serves, and fails exactly when none does |
| `SmallMem.RequestMeans` | rtt2.1/src/mem.c:246-274 | a request is refused at once exactly if it is empty or larger than the heap, and takes its words rounded up, at least three |
| `SmallMem.MallocTakes` | rtt2.1/src/mem.c:290-342 | with at least six words to spare the block has exactly the words asked for and the rest is one free block behind it, else the whole block is taken; used_mem grows by what was taken |
| `SmallMem.MallocStart` | rtt2.1/src/mem.c:345-353 | lfree stays, or moves to the lowest free block behind the one taken if that was lfree |
| `SmallMem.FreeReleases` | rtt2.1/src/mem.c:505-559 | the block is no longer used, all other used blocks stay |
| `SmallMem.ReallocMeans` | rtt2.1/src/mem.c:386-467 | unchanged, cut to exactly the words asked for, or freed after an allocation, by the sizes in words |
| `SmallMem.LimitRefuses` | rtt2.1/src/mem.c:279-291 | the loop limit refuses a free block with room exactly when it is the last one and fits exactly |
| `SmallMem.ExactFitRefused` | rtt2.1/src/mem.c:279-291 | a fresh heap refuses a request for all of its words |
| `SmallMem.FreeUndoesMalloc` | rtt2.1/src/mem.c:246-559 | freeing what was just allocated restores blocks, lfree and used_mem |
| `Layout.LayoutUnique` | rtt2.1/src/mem.c:136-174 | the used blocks determine the whole coalesced row |
| `Layout.PluggedWellFormed` | rtt2.1/src/mem.c:136-174 | joining a hole with its neighbours restores coalescing |
| `SmallHeap.Heap.constructor` | rtt2.1/src/mem.c:184-231 | one free block and the end header |
| `SmallHeap.Heap.PlugHoles` | rtt2.1/src/mem.c:136-174 | on the headers in memory: joins both neighbours, moves lfree off a header that goes away, changes no live data |
| `SmallHeap.Heap.Search` | rtt2.1/src/mem.c:279-291 | the loop over the headers finds the first fit |
| `SmallHeap.Heap.Malloc` | rtt2.1/src/mem.c:246-375 | headers, lfree, used_mem and max_mem as specified; the pointer leads to the data of the used block that was chosen; no live data changes |
| `SmallHeap.Heap.Free` | rtt2.1/src/mem.c:505-559 | as specified; no other live data changes; nothing happens for a pointer behind the heap |
| `SmallHeap.Heap.Realloc` | rtt2.1/src/mem.c:386-467 | null allocates, a pointer behind the heap comes back, a live block is kept, cut short or moved; the first words up to the shorter length are the same and no other live data changes |
| `MemHeap.FreeUndoesTake` | rtt2.1/src/memheap.c:146-288 | freeing a block that was just taken, split or whole, restores the blocks |
| `MemHeap.NeedMeans` | rtt2.1/src/memheap.c:154-158 | a request takes its words, at least three |
| `MemHeap.TakenMeans` | rtt2.1/src/memheap.c:190-262 | with at least nine words to spare the block has exactly the words asked for and the rest is one free block, else the whole block is used |
| `MemHeap.FreedMeans` | rtt2.1/src/memheap.c:499-596 | after a free exactly the other used blocks are used |
| `MemHeap.InPlaceMeans` | rtt2.1/src/memheap.c:340-495 | where the block and the free block behind it end after growing, cutting or neither |
| `MemHeap.FirstFitMeans` | rtt2.1/src/memheap.c:176-188 | the search takes a block with room, before which none on the ring has, and fails only if none has |
| `MemHeap.Heap.constructor` | rtt2.1/src/memheap.c:60-130 | one free block, the tail and the free ring |
| `MemHeap.Heap.RemoveFree` | rtt2.1/src/memheap.c:221-226 | a block leaves the free ring, the address ring stays |
| `MemHeap.Heap.InsertFree` | rtt2.1/src/memheap.c:581-587 | a block enters the free ring at its front |
| `MemHeap.Heap.SplitBlock` | rtt2.1/src/memheap.c:196-219 | a header is linked into the address ring, both ways |
| `MemHeap.Heap.Search` | rtt2.1/src/memheap.c:176-188 | the first block of the free ring with room |
| `MemHeap.Heap.Alloc` | rtt2.1/src/memheap.c:146-288 | both rings and available_size stay right; the first fit is taken, split if the rest holds a block, and nothing changes on failure |
| `MemHeap.Heap.ExactFitRefused` | rtt2.1/src/memheap.c:160 | a request that some free block has room for is refused exactly if it is for all words that are free |
| `MemHeap.Heap.WholeRefused` | rtt2.1/src/memheap.c:160 | a heap with one free block, as a fresh one, refuses to give away the whole of it |
| `MemHeap.Heap.Free` | rtt2.1/src/memheap.c:499-596 | both rings and available_size stay right; the block joins its free neighbours |
| `MemHeap.Heap.Shrink` | rtt2.1/src/memheap.c:424-495 | a block cut short: the rest becomes free and joins the next |
| `MemHeap.Heap.Grow` | rtt2.1/src/memheap.c:318-404 | a block grows into the free block behind it |
| `MemHeap.Heap.CanGrowMeans` | rtt2.1/src/memheap.c:337-354 | a block grows exactly if the next is free and both hold the request and more than three words |
| `MemHeap.Heap.Realloc` | rtt2.1/src/memheap.c:291-496 | frees, allocates, resizes in place, or moves to the block allocation would choose; no other used block changes |
| `PageList.CanonicalUnique` | rtt2.1/src/slab.c:246-332 | the set of free pages determines the list |
| `PageList.AllocPages` | rtt2.1/src/slab.c:246-277 | allocation takes exactly its pages out of the free set and keeps the list canonical |
| `PageList.ReleasePages` | rtt2.1/src/slab.c:282-332 | release adds exactly its pages and keeps the list canonical |
| `PageList.AllocLowest` | rtt2.1/src/slab.c:246-277 | the lowest run long enough is taken; failure exactly when there is none |
| `PageList.ReleaseUndoesAlloc` | rtt2.1/src/slab.c:246-332 | alloc then free restores the identical list |
| `PageList.ReleasesCommute` | rtt2.1/src/slab.c:282-332 | frees of disjoint ranges commute |
| `PageList.RunKeeps` | rtt2.1/src/slab.c:246-332 | in every run the list is canonical, held ranges are disjoint and no page is lost |
| `PageList.RunSteps` | rtt2.1/src/slab.c:246-332 | a run makes every one of its calls in turn |
| `PageHeap.Pages.constructor` | rtt2.1/src/slab.c:337-344 | one run with all pages |
| `PageHeap.Pages.PageAlloc` | rtt2.1/src/slab.c:246-277 | the linked page heads follow the specification |
| `PageHeap.Pages.PageFree` | rtt2.1/src/slab.c:282-332 | the linked page heads follow the specification |
| `SlabSizes.ZoneIndexFits` | rtt2.1/src/slab.c:411-469 | the chunk size holds the request, wastes less than an eighth from 128 bytes on, and is determined by the index |
| `SlabSizes.SmallestChunk` | rtt2.1/src/slab.c:411-469 | of all chunk sizes a request gets the smallest that holds it |
| `SlabSizes.ChunkLimit` | rtt2.1/src/slab.c:385-391 | requests below the zone limit get chunks within it |
| `SlabSizes.OffsetRounds` | rtt2.1/src/slab.c:640-650 | chunks start at the header length rounded up to the size, or to eight |
| `SlabSizes.FitIsQuotient` | rtt2.1/src/slab.c:654 | the number of chunks is the quotient of the room and the size |
| `SlabSizes.ChunkInside` | rtt2.1/src/slab.c:640-660 | every chunk lies behind the header and inside the zone |
| `SlabSizes.ChunksApart` | rtt2.1/src/slab.c:640-660 | chunks do not overlap |
| `SlabSizes.ChunkAligned` | rtt2.1/src/slab.c:640-650 | power-of-two chunks up to a page are aligned to their size |
| `Slab.TookPartition` | rtt2.1/src/slab.c:554-582 | taking a chunk keeps allocated, freed and never-used chunks a partition and z_nfree their count |
| `Slab.GavePartition` | rtt2.1/src/slab.c:861-877 | so does giving one back; the zone is all free exactly if it was the last |
| `Slab.TakeUndoesGive` | rtt2.1/src/slab.c:554-582 | never-used chunks go first, then the chunk given back last; taking it restores the zone |
| `Slab.CountLive` | rtt2.1/src/slab.c:549-671 | z_nfree counts exactly the chunks that are not allocated |
| `Slab.Slab.constructor` | rtt2.1/src/slab.c:354-403 | no zones, the pages of the descriptors allocated |
| `Slab.Slab.Owner` | rtt2.1/src/slab.c:855-861 | the page descriptor recovers the owning zone of every allocated chunk |
| `Slab.Slab.TakeChunk` | rtt2.1/src/slab.c:554-591 | a chunk nobody had; a zone with none left leaves its list |
| `Slab.Slab.OpenZone` | rtt2.1/src/slab.c:637-664 | a zone of the right chunk size is set up and listed |
| `Slab.Slab.AllocateChunk` | rtt2.1/src/slab.c:549-671 | from a listed zone, a spare zone or new pages; fails only without all three |
| `Slab.Slab.GiveChunk` | rtt2.1/src/slab.c:861-877 | the chunk is free; a zone that was full is listed again |
| `Slab.Slab.Retire` | rtt2.1/src/slab.c:885-908 | a zone without allocated chunks leaves its list and becomes spare |
| `Slab.Slab.FreeChunk` | rtt2.1/src/slab.c:852-935 | the zone is retired exactly when it is all free and another one is listed; a third spare zone gives its pages back |
| `Slab.Slab.Malloc` | rtt2.1/src/slab.c:488-683 | large requests get whole pages, small ones a new chunk of their size class; failure exactly when there are none |
| `Slab.Slab.FreePages` | rtt2.1/src/slab.c:826-850 | the pages recorded in the descriptor are given back |
| `Slab.Slab.Free` | rtt2.1/src/slab.c:793-935 | the descriptor of the page decides between the two, rightly for every live pointer |
| `Slab.Slab.MemoriesApart` | rtt2.1/src/slab.c:488-935 | the bytes of any two live allocations, chunks or pages, do not overlap |
| `Slab.Slab.AddressMeans` | rtt2.1/src/slab.c:501-680 | where an allocation starts and how long it is, in pages of 4096 bytes |
| `WaitList.EnqueuedOrder` | rtt2.1/src/ipc.c:92-135 | a thread enters behind everyone at least as urgent and before everyone less urgent; a priority list stays sorted |
| `WaitList.EnqueuedMembers` | rtt2.1/src/ipc.c:92-135 | nobody else enters or leaves |
| `Lists.WithoutSplits` | rtt2.1/include/rtservice.h:90-97 | a thread that leaves a list leaves the others in their order |
| `WaitList.Enqueue` | rtt2.1/src/ipc.c:105-131 | the loop finds that place |
| `WaitList.Remaining` | rtt2.1/src/ipc.c:1488-1495 | the rest of a waiting time, a negative rest counting as none |
| `Mailbox.RunKeeps` | rtt2.1/src/ipc.c:1406-1676 | in every interleaving with timeouts and resets: a suspended sender means free slots do not outnumber woken senders, the same for receivers and mails, and received mails are a prefix of those sent, in order |
| `Mailbox.Reachable` | rtt2.1/src/ipc.c:1406-1676 | from the start |
| `Mailbox.Settled` | rtt2.1/src/ipc.c:1406-1676 | once the woken have run, senders wait only on a full box and receivers only on an empty one, never both |
| `Mailbox.StepKeeps` | rtt2.1/src/ipc.c:1406-1722 | one step |
| `Mailbox.MailsMove` | rtt2.1/src/ipc.c:1406-1665 | a send stores the very mail it was called with, behind the others, and a receive hands out the first |
| `Mailbox.ReceivedIsAsked` | rtt2.1/src/ipc.c:1406-1665 | so in every run without a reset what is received is the first part of what the events asked to send |
| `Mailbox.FirstWoken` | rtt2.1/src/ipc.c:1507-1515 | a mail that moves wakes the thread that waits first on the other side |
| `Mailbox.FullWaits` | rtt2.1/src/ipc.c:1432-1476 | a send to a full box waits with its mail, or is refused without a waiting time |
| `Mailbox.EmptyWaits` | rtt2.1/src/ipc.c:1572-1624 | so does a receive from an empty one |
| `Mailbox.AgainWaits` | rtt2.1/src/ipc.c:1478-1497 | a woken thread that finds the box as it was waits for the rest of its time, with the same mail, or gives up |
| `Mailbox.MailStays` | rtt2.1/src/ipc.c:1406-1500 | a waiting call keeps its mail |
| `Mailbox.ExpireMeans` | rtt2.1/src/thread.c:669-691 | a timeout ends one call |
| `Mailbox.NoLimit` | rtt2.1/src/ipc.c:1456-1472 | a wait without limit does not time out |
| `Mailbox.ResetMeans` | rtt2.1/src/ipc.c:1688-1712 | a reset drops the mails and ends every wait |
| `Mailbox.Mailbox.Offsets` | rtt2.1/src/ipc.c:1499-1503 | in_offset is (out_offset + entry) mod size |
| `Mailbox.Mailbox.constructor` | rtt2.1/src/ipc.c:1255-1283 | empty |
| `Mailbox.Mailbox.Send` | rtt2.1/src/ipc.c:1406-1524 | the region on the ring buffer is the specified one |
| `Mailbox.Mailbox.Recv` | rtt2.1/src/ipc.c:1553-1676 | the region on the ring buffer is the specified one |
| `Mailbox.Mailbox.Control` | rtt2.1/src/ipc.c:1688-1718 | reset empties mails and both lists |
| `MessageQueue.Reachable` | rtt2.1/src/ipc.c:1926-2270 | in every interleaving of the two-phase calls: free, queued and held nodes partition the pool, each held node has one owner, a node being read holds the message that was first when unlinked, order is that of the deque with urgent ones in front, and no wake-up is lost |
| `MessageQueue.RunSteps` | rtt2.1/src/ipc.c:1926-2270 | a run goes through every one of its events in turn |
| `MessageQueue.StepKeeps` | rtt2.1/src/ipc.c:1926-2270 | one step |
| `MessageQueue.Delivered` | rtt2.1/src/ipc.c:2210 | a receiver has exactly as many bytes as it asked for, up to the message size, and the whole message if it asked for enough |
| `MessageQueue.SendMeans` | rtt2.1/src/ipc.c:1926-1958 | a send takes the first free node for its own message, or is refused |
| `MessageQueue.MessageStays` | rtt2.1/src/ipc.c:1926-1998 | and keeps that message until it is linked |
| `MessageQueue.CopyMeans` | rtt2.1/src/ipc.c:1961-1963 | the copy writes it into that node and no other |
| `MessageQueue.DequeMoves` | rtt2.1/src/ipc.c:1965-2207 | a linked message is last, or first if urgent, and a receive takes the first |
| `MessageQueue.RecvTakes` | rtt2.1/src/ipc.c:2194-2207 | a receive holds the first message and the size it asked for |
| `MessageQueue.EmptyWaits` | rtt2.1/src/ipc.c:2120-2165 | from an empty queue it waits, or is refused without a waiting time |
| `MessageQueue.AgainWaits` | rtt2.1/src/ipc.c:2129-2192 | again for the rest of its time after a wake-up |
| `MessageQueue.LinkWakes` | rtt2.1/src/ipc.c:1983-1993 | a link wakes the receiver that waits first |
| `MessageQueue.ReadMeans` | rtt2.1/src/ipc.c:2209-2218 | reading keeps message and size, and then the node is the first free one |
| `MessageQueue.ExpireMeans` | rtt2.1/src/thread.c:669-691 | a timeout ends one wait |
| `MessageQueue.NoLimit` | rtt2.1/src/ipc.c:2152-2168 | a wait without limit does not time out |
| `MessageQueue.StepOnPool` | rtt2.1/src/ipc.c:1926-2270 | what each step does to the lists of the queue object |
| `MessageQueue.Queue.constructor` | rtt2.1/src/ipc.c:1767-1787 | all nodes free, the last one first |
| `MessageQueue.Queue.Take` | rtt2.1/src/ipc.c:1941-1958 | the first free node leaves the free list |
| `MessageQueue.Queue.Terminate` | rtt2.1/src/ipc.c:1961 | only the link of the node changes, no list does |
| `MessageQueue.Queue.Append` | rtt2.1/src/ipc.c:1965-1998 | the node is last, head and tail right, the first receiver woken |
| `MessageQueue.Queue.Send` | rtt2.1/src/ipc.c:1926-1998 | the regions in a row: refused without a free node, else the first free node is queued last |
| `MessageQueue.Queue.Push` | rtt2.1/src/ipc.c:2051-2079 | the node is first |
| `MessageQueue.Queue.Unlink` | rtt2.1/src/ipc.c:2117-2207 | the first node, or waiting, or refusal |
| `MessageQueue.Queue.GiveBack` | rtt2.1/src/ipc.c:2212-2218 | the node is free again |
| `MessageQueue.Queue.Reset` | rtt2.1/src/ipc.c:2243-2268 | all queued nodes are freed, in turn, and all receivers woken |
| `EventSet.VisitIsReceive` | rtt2.1/src/ipc.c:1029-1065 | what a send does to one waiter is what an immediate receive would do |
| `EventSet.SatisfiedIff` | rtt2.1/src/ipc.c:1122-1134 | a request is met exactly if all its bits are set, or one of them |
| `EventSet.ReceiveMeans` | rtt2.1/src/ipc.c:1122-1149 | a receive gets the bits it wants that are set, and clears what it may |
| `EventSet.FoldInTurn` | rtt2.1/src/ipc.c:1023-1066 | waiting threads are served in their order, each with the bits that those before it left |
| `EventSet.FoldSettles` | rtt2.1/src/ipc.c:998-1077 | after a send no waiter left is satisfied by the bits left |
| `EventSet.FoldMembers` | rtt2.1/src/ipc.c:998-1077 | each waiter stays or is woken, never both |
| `EventSet.FoldSorted` | rtt2.1/src/ipc.c:998-1077 | those that stay keep their order |
| `EventSet.FoldAnswers` | rtt2.1/src/ipc.c:998-1077 | what a woken thread got satisfies its request and is part of it |
| `EventSet.StepKeeps` | rtt2.1/src/ipc.c:998-1240 | one step keeps that no suspended waiter is satisfied |
| `EventSet.SendMeans` | rtt2.1/src/ipc.c:998-1078 | a send adds its bits and serves the waiting threads with them |
| `EventSet.RecvMeans` | rtt2.1/src/ipc.c:1093-1200 | a receive is met at once, waits with its request, or is refused |
| `EventSet.EndsMean` | rtt2.1/src/ipc.c:1180-1240 | a timeout and a return end one call, a reset every wait |
| `EventSet.Reachable` | rtt2.1/src/ipc.c:998-1240 | so in every run from the start |
| `EventSet.RunSteps` | rtt2.1/src/ipc.c:998-1240 | a run goes through every one of its events in turn |
| `EventSet.EventObject.Send` | rtt2.1/src/ipc.c:998-1077 | the walk over the list is the fold |
| `EventSet.EventObject.Recv` | rtt2.1/src/ipc.c:1093-1201 | receive at once, fail, or wait |
| `Mutex.StepKeeps` | rtt2.1/src/ipc.c:642-859 | one step keeps value, owner and hold consistent, the owner as urgent as every waiter, others at their base priority and waiters in order of urgency and age, exactly unless it is the 256th take |
| `Mutex.RunKeeps` | rtt2.1/src/ipc.c:642-859 | so in every run without one |
| `Mutex.Reachable` | rtt2.1/src/ipc.c:642-859 | from the start |
| `Mutex.HandOver` | rtt2.1/src/ipc.c:807-850 | a full release restores the old owner and serves the most urgent, longest-waiting thread |
| `Mutex.TakeWaits` | rtt2.1/src/ipc.c:700-731 | a take of an owned mutex with a waiting time suspends its thread, whatever the priorities: the list has exactly the old threads in order and the new one |
| `Mutex.TakeMeans` | rtt2.1/src/ipc.c:660-700 | a free mutex goes to the thread that takes it, the owner counts up, without a waiting time others get nothing |
| `Mutex.ReleaseMeans` | rtt2.1/src/ipc.c:772-859 | a release by another thread does nothing, the owner counts down, the last one frees the mutex or hands it to the first thread |
| `Mutex.WaiterServed` | rtt2.1/src/ipc.c:807-850 | a thread that alone waits owns the mutex after the last release |
| `Mutex.ExpireMeans` | rtt2.1/src/thread.c:669-691 | a timeout ends one wait and changes nothing else |
| `Mutex.OwnerPriority` | rtt2.1/src/ipc.c:642-859 | an owner runs at the most urgent of its base priority and those of all threads suspended since it became the owner, timed-out ones included |
| `Mutex.StepRight` | rtt2.1/src/ipc.c:642-859 | a step keeps the owner at the priority of the most urgent waiter, or its own, exactly unless it is the timeout of the only thread that urgent |
| `Mutex.StaysRaised` | rtt2.1/src/ipc.c:703-752 | after such a timeout nobody waits and the owner stays raised |
| `Mutex.ReleaseUndoesTake` | rtt2.1/src/ipc.c:642-859 | a release undoes a recursive take |
| `Mutex.OverflowReached` | rtt2.1/src/ipc.c:667-671 | 256 takes leave an owner with a hold count of zero |
| `Mutex.MutexObject.Take` | rtt2.1/src/ipc.c:642-761 | the fields follow the specification |
| `Mutex.MutexObject.Suspend` | rtt2.1/src/ipc.c:92-135 | the place is found by the priorities threads run at |
| `Mutex.MutexObject.Release` | rtt2.1/src/ipc.c:772-859 | the fields follow the specification |
| `Timers.Comparisons` | rtt2.1/src/timer.c:356-363 | within half a turn the insertion comparison is that of times, across the wrap |
| `Timers.ExpiredIsDue` | rtt2.1/src/timer.c:511 | so is the expiry test |
| `Timers.ComparisonsExact` | rtt2.1/src/timer.c:356-511 | exactly which distances within a turn the comparisons accept |
| `Timers.PlacedIsInserted` | rtt2.1/src/timer.c:341-370 | the walk of the kernel inserts in order of due times |
| `Timers.StepKeeps` | rtt2.1/src/timer.c:294-546 | one step keeps the list sorted, unique and comparable, every listed timer due when it was linked for, and all expiries at their time and in order; exactly if no timer is too long, no start changes when a listed timer is due, and none links a listed timer or links too late |
| `Timers.RunKeeps` | rtt2.1/src/timer.c:294-546 | so in every run, with any number of starts of any timer interrupted between their regions |
| `Timers.AlwaysOnTime` | rtt2.1/src/timer.c:294-546 | without late links every expiry is exactly when due, across any number of wraps |
| `Timers.Fires` | rtt2.1/src/timer.c:488-546 | a listed timer that nobody starts or stops has fired once a check at or after its time is over |
| `Timers.FiresWhenDue` | rtt2.1/src/timer.c:488-546 | without late links at exactly its due time |
| `Timers.StartFires` | rtt2.1/src/timer.c:294-393 | a timer of at least one tick started with interrupts off and left alone fires exactly after its ticks |
| `Timers.StoppedSilent` | rtt2.1/src/timer.c:420-445 | a timer that is stopped and left alone does not fire |
| `Timers.StartMeans` | rtt2.1/src/timer.c:294-393 | a start lists the timer for now and its ticks, once, and makes it active |
| `Timers.StopMeans` | rtt2.1/src/timer.c:420-445 | a stop takes an active timer off the list |
| `Timers.BeginMeans` | rtt2.1/src/timer.c:306-312 | the first region of a start |
| `Timers.ReadMeans` | rtt2.1/src/timer.c:314-321 | the reading of the tick |
| `Timers.LinkMeans` | rtt2.1/src/timer.c:324-397 | the second region |
| `Timers.CheckMeans` | rtt2.1/src/timer.c:488-546 | a tick begins a check, in which the first timer fires exactly if it is due, and which is over exactly if it is not |
| `Timers.ReturnMeans` | rtt2.1/src/timer.c:526-538 | after its callback a periodic timer that is active is due again after its ticks; another is not active |
| `Timers.FiresOnTimeIff` | rtt2.1/src/timer.c:294-393 | a timer of k ticks is on time exactly when fewer than k ticks pass between reading the tick and linking it |
| `Timers.LateLink` | rtt2.1/src/timer.c:307-324 | one tick in that gap makes a one-tick timer fire one tick late |
| `Timers.StartInPieces` | rtt2.1/src/timer.c:294-393 | whatever comes between the regions of a start, its link is right exactly if no event in between linked the timer and left it linked, and it is not too late for what the last start wrote |
| `Timers.DoubleStart` | rtt2.1/src/timer.c:307-324 | a start from an interrupt between the regions of another lists the timer twice |
| `Timers.ReadKeeps` | rtt2.1/src/timer.c:314-321 | writing the due time is right exactly if it changes no listed timer |
| `Timers.OtherLate` | rtt2.1/src/timer.c:314-321 | a due time written while the timer is listed lets a check pass over another timer that is due |
| `Timers.ExpireProgresses` | rtt2.1/src/timer.c:497-540 | in a check a timer expires exactly when one is due, and then fewer are |
| `Timers.CallbackBounded` | rtt2.1/src/timer.c:517-538 | callbacks and restarts of at least a tick make none due |
| `Timers.CheckEndsIff` | rtt2.1/src/timer.c:497-540 | with idle callbacks the check comes to an end exactly if no timer that is due starts again for no ticks |
| `Timers.NeverEnds` | rtt2.1/src/timer.c:497-540 | with a periodic timer of no ticks it never does |
| `TimerRows.Locate` | rtt2.1/src/timer.c:341-366 | the walk of one row stops at the right place |
| `TimerRows.TimerList.Search` | rtt2.1/src/timer.c:337-370 | so does the walk down any number of rows |
| `TimerRows.TimerList.Remove` | rtt2.1/src/timer.c:123-131 | out of every row |
| `TimerRows.TimerList.Raise` | rtt2.1/src/timer.c:372-391 | into the bottom row and as many rows above it as the counter ends in pairs of zero bits |
| `TimerRows.TimerList.BeginStart` | rtt2.1/src/timer.c:307-321 | the first region and the reading of the tick |
| `TimerRows.TimerList.LinkStart` | rtt2.1/src/timer.c:324-393 | the second region: sorted, stable, for any number of rows |
| `TimerRows.TimerList.Start` | rtt2.1/src/timer.c:294-393 | both with interrupts off |
| `TimerRows.TimerList.Check` | rtt2.1/src/timer.c:488-546 | with idle callbacks: fires exactly the due timers in order, restarts the periodic ones and ends |
| `TimerRows.DueIsCut` | rtt2.1/src/timer.c:497-511 | the timers that fire are those up to the first that is not due |
| `TimerRows.TimerList.Tick` | rtt2.1/src/clock.c:83-105 | one tick and its check |
| `TimerRows.CheckIsRun` | rtt2.1/src/timer.c:488-546 | the check on the rows, with idle callbacks, is a run of the steps |
| `FirstBit.FindLowest` | rtt2.1/src/kservice.c:1243-1257 | the bit found is set and no lower one is |
| `FirstBit.FindIsFirst` | rtt2.1/src/kservice.c:1243-1257 | the search by bytes finds the least member of the set of bits |
| `FirstBit.LowestBit` | rtt2.1/src/kservice.c:1243-1257 | as a call |
| `PriorityBitmap.MarkKept` | rtt2.1/src/scheduler.c:297-300 | setting and clearing changes the mark of one priority |
| `PriorityBitmap.ShapeKept` | rtt2.1/src/scheduler.c:338-349 | the group word keeps saying which entries are empty |
| `PriorityBitmap.HighestFound` | rtt2.1/src/scheduler.c:203-211 | one- or two-level search finds the most urgent marked priority |
| `PriorityBitmap.Search` | rtt2.1/src/scheduler.c:203-211 | the search on words is that search |
| `ReadyQueues.StepKeeps` | rtt2.1/src/thread.c:234-690 | one step keeps: a thread is ready exactly if it is once in the queue of its priority, suspended on at most one list, and a bit is set exactly if its queue is not empty; exactly unless it is a region of a resume whose thread was resumed, or suspended on a list, meanwhile |
| `ReadyQueues.RunKeeps` | rtt2.1/src/thread.c:234-690 | so in every run |
| `ReadyQueues.Reachable` | rtt2.1/src/thread.c:234-690 | from the start |
| `ReadyQueues.InsertKeepsIff` | rtt2.1/src/scheduler.c:268-304 | the second region of a resume is right exactly if the thread is still suspended and on no list |
| `ReadyQueues.UnlinkKeepsIff` | rtt2.1/src/thread.c:645-653 | the first exactly if it is still suspended |
| `ReadyQueues.RemoveKeeps` | rtt2.1/src/thread.c:603-613 | a suspension is right whatever became of the thread since the test |
| `ReadyQueues.PriorityMeans` | rtt2.1/src/thread.c:514-557 | a thread has the priority it is given; a ready one is last in that queue and in no other; all others keep their order and records |
| `ReadyQueues.ResumeMeans` | rtt2.1/src/thread.c:627-691 | a suspended thread that is resumed, or times out, leaves its wait list and is last in the queue of its priority |
| `ReadyQueues.SuspendMeans` | rtt2.1/src/thread.c:585-618 | a ready thread that is suspended leaves its queue; another is left alone |
| `ReadyQueues.SuspendOnMeans` | rtt2.1/src/ipc.c:92-135 | on a wait list it takes the place it is given |
| `ReadyQueues.SuspendAnywayMeans` | rtt2.1/src/thread.c:603-613 | the region of a suspension takes the thread off the list it is on by then |
| `ReadyQueues.StartupMeans` | rtt2.1/src/thread.c:234-258 | a new thread has its first priority |
| `ReadyQueues.YieldMeans` | rtt2.1/src/thread.c:408-442 | the running thread goes behind the others of its queue |
| `ReadyQueues.LockMeans` | rtt2.1/src/scheduler.c:359-402 | locks nest, and a locked scheduler selects nobody |
| `ReadyQueues.RegionsAreResume` | rtt2.1/src/thread.c:627-660 | the regions of a resume in a row are the call |
| `ReadyQueues.ResumeInPieces` | rtt2.1/src/thread.c:627-660 | whatever comes between its regions, a resume is right exactly if no step in between made the thread ready and left it so, or put it on a wait list and left it there |
| `ReadyQueues.ResumeTested` | rtt2.1/src/thread.c:636-653 | its first region is right exactly if no step since the test made the thread ready and left it so |
| `ReadyQueues.DoubleResume` | rtt2.1/src/thread.c:645-656 | a second resume in between queues the thread twice |
| `ReadyQueues.ScheduledFirst` | rtt2.1/src/scheduler.c:192-225 | an unlocked schedule selects the head of the most urgent queue |
| `Scheduler.Scheduler.constructor` | rtt2.1/src/scheduler.c:121-150 | nothing ready |
| `Scheduler.Scheduler.InsertThread` | rtt2.1/src/scheduler.c:268-304 | the region on the fields |
| `Scheduler.Scheduler.RemoveThread` | rtt2.1/src/scheduler.c:314-354 | the region on the fields |
| `Scheduler.Scheduler.Schedule` | rtt2.1/src/scheduler.c:192-225 | runs the head of the most urgent queue |
| `Scheduler.Scheduler.Startup` | rtt2.1/src/thread.c:234-265 | is the setting of the priority, the resume, and then the schedule |
| `Scheduler.Scheduler.Suspend` | rtt2.1/src/thread.c:585-618 | is the step |
| `Scheduler.Scheduler.SuspendOn` | rtt2.1/src/ipc.c:92-135 | is the step |
| `Scheduler.Scheduler.Resume` | rtt2.1/src/thread.c:627-660 | is the step |
| `Scheduler.Scheduler.Timeout` | rtt2.1/src/thread.c:669-691 | is the step |
| `Scheduler.Scheduler.Sleep` | rtt2.1/src/thread.c:452-480 | is its region and then the schedule |
| `Scheduler.Scheduler.SleepRegion` | rtt2.1/src/thread.c:457-471 | is the step |
| `Scheduler.Scheduler.Yield` | rtt2.1/src/thread.c:408-442 | is its region and, if the queue turned, the schedule |
| `Scheduler.Scheduler.YieldRegion` | rtt2.1/src/thread.c:414-430 | is the step, and says whether the queue turned |
| `Scheduler.Scheduler.ChangePriority` | rtt2.1/src/thread.c:514-557 | is the step |
| `Scheduler.Scheduler.EnterCritical` | rtt2.1/src/scheduler.c:359-373 | is the step |
| `Scheduler.Scheduler.ExitCritical` | rtt2.1/src/scheduler.c:380-402 | is its region and, if it was the outermost, the schedule |
| `RoundRobin.TurnComes` | rtt2.1/src/clock.c:83-101 | after exactly the slices left ahead of it a thread is first |
| `RoundRobin.TurnLasts` | rtt2.1/src/clock.c:83-101 | and stays so for its own remaining slice, no longer |
| `RoundRobin.Round` | rtt2.1/src/clock.c:83-101 | a round keeps the order and renews all slices |
| `RoundRobin.WhoRuns` | rtt2.1/src/clock.c:83-101 | at every moment the thread whose turn it is runs |
| `TimeSlices.TickRefines` | rtt2.1/src/clock.c:83-101 | one clock interrupt, through yield and schedule, turns the most urgent queue so and runs its head |
| `TimeSlices.ThreadsTakeTurns` | rtt2.1/src/clock.c:83-101 | on the scheduler: the thread at place i becomes current after exactly the ticks left ahead of it, for its own remaining slice, then the next one does |
| `TimeSlices.Clock.Increase` | rtt2.1/src/clock.c:83-101 | the interrupt on the fields is that step |

## Left out

- FinSH 8- and 16-bit operands, casts, `void*` variables, strings, ++ and -- on system variables, calls as left operands: an operator takes its width from its first operand, so the theorem is for the 32-bit fragment.
- FinSH declarations, the lexer and error messages: a token already carries what its name was looked up as; a lone `<` or `>` is the token that ends a line, other unknown characters are errors of the lexer.
- FinshParser.Parser.ParamList: written as a recursion, where the source loops and appends to the sibling chain; the tree and the tokens left are the same. FinshParser.Parser.Line likewise.
- FinshShell.Shell.RunLine: requires that the code fits the text segment and that evaluation has a value; the source checks neither, and an operation that C leaves undefined is a fault here. The stack and the text segment are not in the memory map, so a program that writes into them is not modelled.
- FinshHeap.Heap.Allocate: the zeroing of the memory handed out is not modelled.
- MemHeap.Heap.Realloc: the copying of the data when a block moves is not modelled, nor `max_used_size`, nor that headers overlay the pool.
- MemHeap.Heap.Alloc: `max_used_size` is not modelled.
- MemHeap.Heap.Grow: `max_used_size` is not modelled.
- SmallHeap.Heap.Realloc: a pointer inside the heap must be a live block; the source reads whatever is there. The `prev` field of the end header, which is never read, is not kept.
- Slab.Slab.Malloc: the semaphore around the page allocator and the usage statistics are not modelled; `rt_realloc` and `rt_calloc` are left out as compositions of these.
- The heap semaphores: allocator calls are sequential.
- Scheduler words: setting and clearing a bit is on the set of bit numbers; the search is on the word with those bits.
- Deleting and detaching threads and IPC objects, semaphores, memory pools, mutex flags other than priority order, and threads that hold several mutexes.
- Mailbox.RunKeeps: threads are not deleted while they wait, and a timeout can come at any step, so nothing is said about how long a wait lasts.
- Mutex.StepKeeps: base priorities do not change while the mutex is in use.
- Timers.StepKeeps: a start sets the length and the period of its timer in its first region; `rt_timer_control` alone is left out, and so are soft timers and `rt_tick_set`. `rt_timer_stop` is one step, with its flag, and so is reading the tick and writing the due time. After a step that is not allowed the list of the model has the timer twice; what the links of the node are then is not modelled.
- Timers.CallbackBounded: asks callbacks and periods for at least one tick; `Timers.CheckEndsIff` is the exact statement for idle callbacks.
- TimerRows.TimerList.Check: callbacks do nothing; the calls they may make are steps of `Timers`. TimerRows.TimerList.Tick and TimerRows.CheckIsRun likewise.
- TimerRows.TimerList.LinkStart: the timer is in no row, which is the condition of `Timers.StepKeeps`.
- Scheduler.Scheduler.SuspendOn: the place in the wait list is a parameter; `WaitList.Enqueue` finds it.
- TimeSlices.ThreadsTakeTurns: the set of ready threads at the top level is fixed and slices are at least one tick; a slice of no ticks wraps the counter.
- Context switching, interrupt masking itself, stacks, hooks, logging, console output, string and formatting helpers, devices, objects, modules, board code and the Python tools.
