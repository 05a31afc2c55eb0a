# A model of the rjs engine

rjs is an ECMA-262 5.1 engine. This project models its algorithmic cores in Dafny and proves what they are for.

- **Garbage collector.** `HeapModel` lays blocks of words out in a space, with the walker's view of which words are
  pointers. `Cheney` is the invariant of a copying collection, `Forwarding`, `Collector`, `Finalizer` and
  `CopyingStrategy` are the code, which works in place on two word arrays. `CollectionResult` says what a finished
  collection means, `AccessPaths` what a program can see of it, and `RootWalkers` where the roots come from.
- **Compiler and interpreter.** `Ast` and `Semantics` are the source fragment and its structured meaning, with value
  operators as arbitrary functions that may throw and change the world. `Generator`, `IrBuilder` and `ExceptionTable`
  specify the stack code, `CodeEmitter` emits it in place, `ExceptionCode` nests exception blocks, `Interpreter` and
  `CallFrame` run it. `ExprCorrect`, `ItemCorrect` and the `...Parts` modules simulate the source by the code piece by
  piece; `CompilerCorrect` puts them together, `Dialects` compares with the standard, `Compilable` says what compiles,
  and `Engine` joins the code; `Tests` says what passes a test.
  `StackBalance` and `ExprForms` look at every form of expression, but only at the height of the operand stack.
- **Properties.** `HashStore` (chained scatter table) and `SparseArray` (dense run or sorted chunks) are the stores.
  `Properties` and `ObjectRules` say what definitions and deletions may do, `JsObject` is the code over the stores,
  `ArrayMethods` the methods that move elements in place, `JsIterator` the enumeration of for-in and `Enumeration` what
  it gives.
- **Numbers.** `Words`, `BigInteger`, `BigProduct`, `BigShift` and `BigDivide` are fixed arithmetic on 39 words of 32
  bits, `Scaling` prepares a decimal number and `Digits` is the digit loop of number formatting.
- **Round trips.** `Uri` encodes and decodes text over UTF-16 and UTF-8; `JsonText`, `JsonWriter`, `JsonLexer` and
  `JsonParser` write and read JSON, `JsonNumber` and `JsonGrammar` are the grammar of the standard, and `JsonTokens`,
  `JsonStrict` and `JsonAgreement` compare, with `JsonExamples` where they differ and `JsonRoundTrip` for what is written.

`dafny verify dfyconfig.toml` checks everything.

Where the code departs from the standard, or fails, the model follows the code. For each case there is the exact
condition and an input that shows it:

- An unlabelled break in a labelled block ends the block: `Dialects.EngineIsExplicit` and `Dialects.StandardPreserved`,
  with `Dialects.BareBreakDiffers`.
- Subtracting zero negates: `BigInteger.Subtract`, with `BigInteger.SubtractingZero`.
- Decrementing a long number whose low word is one borrows although it need not: `BigDivide.InPlaceDecrement`, with
  `BigDivide.DecrementsTooFar`.
- JSON without colons, and with points at the ends of numbers, is taken; escaped surrogates and negative zero are read
  as something else; long integers, strings cut off in an escape, and a zero followed by a capital i panic:
  `JsonStrict.ReadsExactly` and `JsonAgreement.AgreesExactly`, with an input for each in `JsonExamples`.
- An allocation can panic right after a collection that asked for enough memory: `CopyingStrategy.Copying.AllocCollecting`,
  with `CopyingStrategy.PanicsOnEmptyHeap`.
- A right shift by all the words there are panics, and zero comes out of sums and shifts with a sign or with too many or
  too few words: `BigShift.RightShift`, `BigShift.LeftShift` and `BigInteger.Add`, with `BigShift.ShiftsByItsWords`,
  `BigShift.ShiftsToNothing` and `BigInteger.OppositesAdded`.
- Discarded casts and odd deletes leave operands behind: `ExprForms.BalancedExactly`, with
  `ExprForms.UnbalancedExamples`.
- A long dense run cannot take every index: `SparseArray.SparseArray.SetValue`, with `SparseArray.OverrunIsReachable`;
  so `ArrayMethods.Splice` and `ArrayMethods.Reverse` panic on some arrays, with `ArrayMethods.SpliceWithoutRoom` and
  `ArrayMethods.ReverseWithoutRoom`.

## Model

| member | source | states |
|---|---|---|
| `CopyingStrategy.Copying.Copy` | src/gc/strategy/copying.rs:89-262 | a collection leaves a well-formed heap that is exactly the reachable part of the old one, renamed; every walked root slot is forwarded and no other slot touched; words copied plus words left behind are the words that were in use; the finalizer calls are exactly those owed to the blocks left behind; the new memory can hold everything that was in use plus the allocation that failed, in the very space the source takes, and how full the collection left it is remembered for the next one |
| `CopyingStrategy.FillDecides` | src/gc/strategy/copying.rs:101-129 | the size asked for depends on how full the last collection left its space: the fast growth factor applies exactly above 85 percent, the slow one exactly above 50, and none otherwise |
| `CopyingStrategy.FillMatters` | src/gc/strategy/copying.rs:101-129 | one space of 4096 bytes and two fills, for which 8192 and 4096 bytes are asked for |
| `CopyingStrategy.Copying.CollectTwice` | src/gc/strategy/copying.rs:89-262 | of two collections in a row the second takes a space of the size that the words left by the first one call for |
| `CopyingStrategy.Copying.Collect` | src/gc/strategy/copying.rs:139-241 | the same for the forwarding, scanning and sweeping phases, into any to-space with room for the words in use |
| `CollectionResult.FinishedIsRenamed` | src/gc/strategy/copying.rs:145-196 | a finished scan is a graph isomorphism: the forwarding map is injective, defined on exactly the reachable blocks, onto the new blocks, and keeps size, header and plain words while commuting with every pointer word |
| `AccessPaths.FollowsAlike` | src/gc/strategy/copying.rs:145-196 | following any sequence of pointer words from a root leads somewhere afterwards exactly if it did before, and then to the copy of what it led to |
| `AccessPaths.SeesTheSame` | src/gc/strategy/copying.rs:145-196 | what any access path leads to has the same size, header and plain words after a collection |
| `AccessPaths.SharesTheSame` | src/gc/strategy/copying.rs:272-292 | two access paths lead to one and the same block after a collection exactly if they did before |
| `Forwarding.Forwarder.Forward` | src/gc/strategy/copying.rs:272-292 | forwarding keeps the collection invariant (each block copied at most once, copies contiguous, scanned words renamed) and returns the address of the one copy |
| `Forwarding.Forwarder.ProcessBlock` | src/gc/strategy/copying.rs:294-311 | scanning one element forwards exactly the pointer words the walker names up to where it stops, and reports whether the whole array stops |
| `Collector.ScanArray` | src/gc/strategy/copying.rs:169-189 | the elements of an array are scanned up to the first one whose walk ends the array, and nothing after it holds a pointer |
| `Collector.ScanToSpace` | src/gc/strategy/copying.rs:160-196 | the scan catches up with the forwarder, so every copy is completely scanned |
| `Collector.ForwardRoots` | src/gc/strategy/copying.rs:145-156 | every walked root slot gets the forwarded value, once each |
| `Cheney.AppendKeepsInv` | src/gc/strategy/copying.rs:273-292 | copying a block that is not forwarded yet keeps the invariant |
| `Cheney.RoomFor` | src/gc/strategy/copying.rs:273-292 | a to-space as large as what is in use has room for every block that is still to be copied |
| `Finalizer.Sweep` | src/gc/strategy/copying.rs:198-241 | the sweep makes exactly the finalizer calls owed to the blocks without a forwarding pointer, in address order |
| `Finalizer.FinalizesExactly` | src/gc/strategy/copying.rs:198-241 | each call owed to an unreachable block is made once, and no other call is made |
| `CopyingStrategy.TargetSizeSuffices` | src/gc/strategy/copying.rs:101-129 | the target size covers what is in use plus the failed allocation, the old size and the initial heap, and is a whole number of pages |
| `CopyingStrategy.Copying.NextSpace` | src/gc/strategy/copying.rs:101-136 | the space to copy to is the spare one or newly mapped, and large enough |
| `CopyingStrategy.Copying.AllocRaw` | src/gc/strategy/copying.rs:45-60 | an allocation appends one block of zeros and keeps every other word, or fails, exactly beyond the high mark, and remembers its size |
| `CopyingStrategy.Copying.AllocCollecting` | src/gc/mod.rs:215-231 | an allocation that does not fit is tried again after a collection, and panics if and only if what was reachable and the new block are beyond the high mark of the next space; it cannot unless everything in use and the block are; otherwise one block of zeros comes behind the heap, which was collected if and only if there was no room at first; spaces, high mark and fill are those of that collection, or as they were |
| `CopyingStrategy.PanicsOnEmptyHeap` | src/gc/mod.rs:215-231 | an empty heap of one page panics on 4000 bytes |
| `CopyingStrategy.Copying.Alloc` | src/gc/mod.rs:233-297 | the same for objects and arrays: the new block has its header, its element count and zeros, the heap stays well formed, and spaces, high mark and fill change with a collection only |
| `HeapModel.MemHeaderRoundTrip` | src/gc/mod.rs:151-186 | packing type, size and array flag into a header loses nothing exactly while the type fits 7 bits and the size 24 bits |
| `HeapModel.RtWalkIsLayout` | src/rt/walker.rs:31-110 | for each type of object the words walked as pointers are exactly the references among its fields, and the payloads that are pointers as their kind says |
| `HeapModel.RtWalkerStable` | src/rt/walker.rs:31-110 | the walker of the engine decides by words that forwarding does not change |
| `RootWalkers.RootHandles.Add` | src/gc/mod.rs:108-123 | a new handle was free or is new at the end, and no other handle changes |
| `RootWalkers.RootHandles.Remove` | src/gc/mod.rs:125-133 | the handle is given back with its target, and no other handle changes |
| `RootWalkers.RootHandles.CloneRoot` | src/gc/mod.rs:135-138 | a second handle has the same target, and no other handle changes |
| `RootWalkers.RootHandles.AnyInUse` | src/gc/mod.rs:299-328 | the count that decides whether handles are walked is right: it differs exactly if some handle is in use |
| `RootWalkers.RootHandlesWalker.Drain` | src/gc/mod.rs:367-387 | the walker returns every handle in use, once, in order |
| `RootWalkers.LocalScopesWalker.Drain` | src/gc/mod.rs:389-440 | the walker returns every slot of every scope, once, in order |
| `CompilerCorrect.CompilerPreserves` | src/rt/interpreter.rs:129-257 | for every function body of the fragment: if the structured execution and the machine both end, they end alike, with the same value or error, the same variables and the same effects |
| `CompilerCorrect.TerminatesAlike` | src/rt/interpreter.rs:129-257 | the machine ends exactly if the structured execution does |
| `CompilerCorrect.NeverPanics` | src/rt/interpreter.rs:129-257 | the compiled code never underflows the stack, runs off its end, uses a local that does not exist, or leaves a block it is not in |
| `CompilerCorrect.Simulates` | src/ir/mod.rs:119-204 | the number of machine steps that reaches the outcome of any amount of fuel, or as many steps without one |
| `ExprCorrect.SimExpr` | src/ir/mod.rs:955-990 | the code of an expression evaluates it: one more operand if the value is left and none otherwise, on every path, with the operands below untouched, errors included |
| `ExprCorrect.SimTest` | src/ir/mod.rs:977-990 | the code of a test jumps exactly if the value is (or, inverted, is not) true |
| `ExprCorrect.SimLogical` | src/ir/mod.rs:1188-1212 | and and or: the right operand is evaluated only if the left one does not decide |
| `ExprCorrect.SimCompound` | src/ir/mod.rs:1078-1186 | compound assignment: load, operate, store, in the order of evaluation of the standard |
| `ExprCorrect.SimIncr` | src/ir/mod.rs:1590-1673 | the four increments: the old or the new value, as a number, and the variable updated |
| `ExprCorrect.SimTernary` | src/ir/mod.rs:1421-1438 | exactly one branch is evaluated, and both end with the same stack |
| `ItemCorrect.SimItem` | src/ir/mod.rs:433-457 | the code of every statement ends the way the statement does: past it, at the target of a break or continue, at the handler of an error, or out of the function |
| `ItemCorrect.SimWhile` | src/ir/mod.rs:881-905 | while loops, with break and continue by label or without |
| `ItemCorrect.SimDo` | src/ir/mod.rs:479-501 | do loops |
| `ItemCorrect.SimFor` | src/ir/mod.rs:547-584 | for loops with their parts present or absent |
| `ItemCorrect.SimIf` | src/ir/mod.rs:664-691 | if, with and without else |
| `ItemCorrect.SimSwitch` | src/ir/mod.rs:735-787 | switch: the first clause whose guard is identical, or the default wherever it stands, then falling through |
| `ItemCorrect.SimTry` | src/ir/mod.rs:797-868 | try and catch: errors of the body go to the handler, everything else through the block |
| `ItemCorrect.SimReturn` | src/ir/mod.rs:705-733 | return inside exception blocks keeps its value in the return slot while the blocks are left |
| `ItemCorrect.SimJump` | src/ir/mod.rs:459-471 | break and continue reach their target, through a Leave when exception blocks are in between |
| `GeneratorFacts.EmitItemGrown` | src/ir/mod.rs:433-457 | a statement only appends code, and leaves labels, targets and exception depth of its surroundings as they were |
| `Dialects.EngineIsExplicit` | src/ir/mod.rs:339-360 | for every function: what it means in the engine is what the standard makes of it once each unlabelled break whose nearest target is a labelled block is given the label of that block, and that rewriting leaves a function alone exactly if it has no such break |
| `Dialects.ExplicitExactly` | src/ir/mod.rs:339-360 | for every statement: it is its own explicit form exactly if no unlabelled break in it has a labelled block as its nearest target, and the explicit form has none |
| `Dialects.StandardPreserved` | src/ir/mod.rs:339-360 | for functions without an unlabelled break directly inside a labelled block, the compiled code does what the standard says |
| `Dialects.BareBreakDiffers` | src/ir/mod.rs:339-360 | a concrete function for which it does not |
| `Compilable.FunctionCompiles` | src/ir/mod.rs:119-204 | a function compiles exactly if it assigns to names only and every break and continue has a target |
| `Compilable.ItemCompiles` | src/ir/mod.rs:433-457 | the same for a statement and the targets around it |
| `CodeEmitter.CompileFunction` | src/ir/mod.rs:119-204 | the emitting methods, which append to a builder, produce exactly the code of the specification |
| `CodeEmitter.IrGenerator.EmitStmt` | src/ir/mod.rs:433-457 | the same for every statement, and for failures |
| `CodeEmitter.IrGenerator.EmitExpr` | src/ir/mod.rs:955-975 | the same for every expression |
| `CodeEmitter.IrGenerator.EmitTry` | src/ir/mod.rs:797-868 | the same for the exception blocks |
| `CodeEmitter.Builder.Build` | src/ir/builder.rs:427-470 | building patches every label and sorts the exception table |
| `CallFrame.Frame.CallBlock` | src/rt/interpreter.rs:129-257 | the loop that updates the frame in place runs the block exactly as the step function does, for any number of instructions |
| `CallFrame.Frame.CallStmt` | src/rt/interpreter.rs:411-1164 | every instruction of the fragment changes the stack, the locals and the instruction pointer as the step function says |
| `CallFrame.Frame.GoToHandler` | src/rt/interpreter.rs:139-182 | the walk over the table stops at the first matching entry |
| `CallFrame.Frame.GoToLeave` | src/rt/interpreter.rs:183-257 | the walk over the table for a Leave from a body or handler: it ends at the first entry that holds the instruction |
| `Engine.RunFunction` | src/rt/interpreter.rs:73-385 | compiling and running: the result is that of the structured semantics, by the standard if the function is free of such breaks |
| `Tests.JumpsDecide` | src/rt/interpreter.rs:615-640 | in the machine: jumps and negation take undefined, null and false for false and true for true |
| `Tests.OperandsDecide` | src/ir/mod.rs:1188-1212 | the same for logical operators, the conditional operator and negation: which operand is evaluated, and what is answered |
| `Tests.BranchesDecide` | src/ir/mod.rs:664-691 | for if, in the structured meaning that the compiled code follows: which branch is executed |
| `Tests.WhileDecides` | src/ir/mod.rs:881-905 | for while: whether the body is executed |
| `Tests.ForDecides` | src/ir/mod.rs:547-584 | the same for the test of a for loop |
| `Tests.DoDecides` | src/ir/mod.rs:479-501 | for do: whether the loop goes round again |
| `Tests.UnassignedIsFalse` | src/rt/value.rs:357-372 | compiled and run, a test of a variable that was never assigned fails |
| `Tests.ParenthesizedName` | src/ir/mod.rs:1068-1076 | a name in parentheses is assigned to and counted like the name |
| `ExceptionTable.ThrowIsLexical` | src/rt/interpreter.rs:139-182 | for any properly bracketed sequence of exception blocks, an error goes to the handler that nesting prescribes, or out of the function if there is none |
| `ExceptionCode.EmitCode` | src/ir/builder.rs:472-524 | the calls that open and close bodies, handlers and finally parts, for any nesting of them, append exactly the records of the code they bracket and leave no block open |
| `ExceptionCode.BuildCode` | src/ir/builder.rs:427-524 | what is built from such calls sends an error at any instruction where nesting prescribes |
| `ExceptionTable.EndFinallyIsLexical` | src/rt/interpreter.rs:269-327 | with an error in flight, the end of a finally block passes it to the handler that nesting prescribes there |
| `ExceptionTable.SortedSearch` | src/ir/builder.rs:427-460 | the first match in the sorted table is the best match, whatever order the blocks were closed in |
| `ExprForms.BalancedExactly` | src/ir/mod.rs:955-1701 | over every form of expression: the code has consistent heights, raises the stack by one if the value is wanted and by none if it is not, and never reads below where it started, if and only if, wherever code is emitted, no cast is discarded and delete is only applied to references |
| `ExprForms.UnbalancedExamples` | src/ir/mod.rs:1225-1243 | a delete of a literal and a discarded cast leave one value too many |
| `ExprForms.SoundRuns` | src/rt/interpreter.rs:411-1164 | the same as it runs: on top of any stack and along every choice of branches |
| `ExprForms.AssignDoes` | src/ir/mod.rs:1078-1186 | assignments to every kind of target, simple and compound |
| `ExprForms.StepDoes` | src/ir/mod.rs:1590-1673 | the four increments of every kind of target |
| `ExprForms.TernaryDoes` | src/ir/mod.rs:1421-1438 | both branches must raise the stack alike |
| `StackBalance.RunsBalanced` | src/rt/interpreter.rs:411-1164 | code with consistent heights never underflows, and all runs that reach its end agree on the height |
| `HashStore.HashStore.Perform` | src/rt/object/hash_store.rs:96-251 | over any run of definitions and deletions, with growth and moved entries in between, the table is the finite map and its count the size of the map |
| `HashStore.HashStore.FindEntry` | src/rt/object/hash_store.rs:31-61 | the search along the links ends, and finds a name exactly if it is stored |
| `HashStore.HashStore.Get` | src/rt/object/hash_store.rs:230-240 | the value under a name, exactly if the map has one |
| `HashStore.HashStore.Add` | src/rt/object/hash_store.rs:96-183 | adding an absent name extends the map by it, whether its home slot is free, heads a chain or is taken by a foreign entry, and grows the table only past the load factor |
| `HashStore.HashStore.MoveAndAdd` | src/rt/object/hash_store.rs:110-132 | an entry that is not at home is moved out of the new name's home slot, and nothing is lost |
| `HashStore.HashStore.Remove` | src/rt/object/hash_store.rs:185-228 | removing a present name removes it from the map; a head is replaced by the second entry of its chain |
| `HashStore.HashStore.Replace` | src/rt/object/hash_store.rs:242-251 | the value of a name changes exactly if the name is there |
| `HashStore.HashStore.Grow` | src/rt/object/hash_store.rs:75-93 | growing keeps the map and leaves room below the load factor |
| `HashStore.HashStore.GetKey` | src/rt/object/hash_store.rs:253-265 | every stored name comes up at exactly one offset |
| `HashStore.GetPrime` | src/rt/object/hash_store.rs:305-323 | the first number of the list that is large enough; beyond the list the least prime that is, or what was asked for if there is none below the largest word |
| `HashStore.IsPrime` | src/rt/object/hash_store.rs:286-303 | trying odd divisors up to the root finds exactly the primes, and one |
| `HashStore.CountsValidSlots` | src/rt/object/hash_store.rs:63-65 | the count of names is the number of valid slots |
| `HashStore.ExtendChain` | src/rt/object/hash_store.rs:134-182 | linking a new name behind the end of its home's chain keeps all chains disjoint, acyclic and at home |
| `HashStore.Unlink` | src/rt/object/hash_store.rs:202-209 | so does linking an entry past the next one |
| `HashStore.ReplaceHead` | src/rt/object/hash_store.rs:210-216 | and moving the second entry of a chain to its head |
| `BigInteger.Add` | src/rt/fmt/bigint.rs:135-191 | sums of any signs are exact while they fit 39 words; exactly which sums come out with a sign that does not match zero |
| `BigInteger.OppositesAdded` | src/rt/fmt/bigint.rs:135-191 | five plus minus five is a zero with a sign |
| `BigInteger.Subtract` | src/rt/fmt/bigint.rs:250-318 | differences are exact if and only if the right operand is not zero or the left one is; otherwise the left operand is negated |
| `BigInteger.SubtractingZero` | src/rt/fmt/bigint.rs:250-262 | five minus zero is minus five |
| `BigInteger.Compare` | src/rt/fmt/bigint.rs:463-497 | the comparison is that of the integers |
| `BigProduct.Multiply` | src/rt/fmt/bigint.rs:194-247 | products are exact while they fit 39 words, with as few words as possible |
| `BigShift.MultiplyAdd` | src/rt/fmt/bigint.rs:400-426 | b * m + a is exact while it fits |
| `BigShift.LeftShift` | src/rt/fmt/bigint.rs:321-355 | a left shift multiplies by the power of two while that fits, and is well formed unless zero is shifted by a word or more; a negative one shifts right |
| `BigShift.RightShift` | src/rt/fmt/bigint.rs:358-397 | a right shift divides by the power of two, rounding towards zero, and panics exactly if it is by as many words as there are; the result is well formed exactly if it is not zero or all words were shifted out and more; a negative one shifts left |
| `BigShift.ShiftsByItsWords` | src/rt/fmt/bigint.rs:358-397 | five shifted right by 32 panics |
| `BigShift.ShiftsToNothing` | src/rt/fmt/bigint.rs:321-397 | five shifted right by three, and zero shifted left by 32, are zeros that are not well formed |
| `BigDivide.Quorem` | src/rt/fmt/bigint.rs:538-587 | the quotient and the remainder are exact with a single correction, for every dividend below (s + 2) times the divisor, s being its top word and not all ones |
| `BigDivide.GuessIsClose` | src/rt/fmt/bigint.rs:546-562 | the guess from the top words is never too large and at most one too small |
| `BigDivide.SetupQuorum` | src/rt/fmt/bigint.rs:526-534 | all three numbers are scaled by one factor, and the top word of the divisor is between 8 and 2 to the 28th |
| `BigDivide.InPlaceDecrement` | src/rt/fmt/bigint.rs:590-620 | the decrement of a positive number is exact if and only if the low word is not one or is the only word; otherwise too much is taken away, and how much; below one it panics |
| `BigDivide.DecrementsTooFar` | src/rt/fmt/bigint.rs:590-620 | decrementing 2 to the 32nd plus one gives zero |
| `BigDivide.Pow` | src/rt/fmt/bigint.rs:623-653 | the table, the shift and the repeated squaring all give the power, while it fits |
| `BigDivide.CountLeadingZeroBits` | src/rt/fmt/bigint.rs:884-911 | shifted left by the count, a word has its top bit set |
| `Digits.GenerateDigits` | src/rt/fmt/mod.rs:246-308 | the digits printed: they stop at the first one with which a neighbouring number is within the error of the value, and then the number printed is the nearer neighbour, the upper one on a tie; otherwise they are the exact digits of the quotient; the exponent grows by one only for a carry |
| `Digits.RoundUp` | src/rt/fmt/mod.rs:261-270 | rounding up reaches the radix only on the first digit, because the digit before would have been rounded up already; so the carry to a single one is exact |
| `Digits.RoundDown` | src/rt/fmt/mod.rs:258-260 | rounding down leaves a number within the error |
| `Scaling.ScaleDecimal` | src/rt/fmt/mod.rs:177-197 | for every 64-bit mantissa and every exponent from -324 to 308 that is the one of its first digit: the scaled value and the divisor are exactly the shifted products, no shift panics, their quotient is at least one and less than ten, and they are ready for the digit loop |
| `Scaling.LeadsByPower` | src/rt/fmt/mod.rs:177-197 | the condition on the exponent is that of the power of ten itself, up to 10 to the 22nd, and beyond it for mantissas of 53 bits unless twenty bits of the power are all zero |
| `Scaling.NothingBetween` | src/rt/fmt/mod.rs:177-197 | no such mantissa comes between ten times the rounded divisor and ten times the power |
| `Scaling.SmallPowersExact` | src/rt/fmt/mod.rs:177-197 | up to 10 to the 22nd no bit of the divisor is lost |
| `Scaling.BitCount` | src/rt/fmt/bigint.rs:130-132 | the number of bits, from the words and the leading zeros of the top word |
| `Digits.DividendFits` | src/rt/fmt/bigint.rs:538-544 | anything below the radix times the divisor has no more words than the divisor |
| `SparseArray.SparseArray.SetValue` | src/rt/object/sparse_array.rs:107-150 | storing at an index changes what is at that index and nothing else, through dense growth, transfer to chunks and chunk insertion; it fails exactly if doubling a long run once is not enough |
| `SparseArray.OverrunsExactly` | src/rt/object/sparse_array.rs:115-140 | a store overruns exactly if the run is long, at least half used, and the index at least twice its length |
| `SparseArray.OverrunIsReachable` | src/rt/object/sparse_array.rs:107-150 | a new array of 641 elements written one after the other refuses index 2560 |
| `SparseArray.SparseArray.GetValue` | src/rt/object/sparse_array.rs:87-105 | reading gives what was stored |
| `SparseArray.SparseArray.FindChunk` | src/rt/object/sparse_array.rs:222-263 | the chunk with the offset, or the exact place to insert it, without looking past the count |
| `SparseArray.SparseArray.TransferToChunks` | src/rt/object/sparse_array.rs:156-175 | the chunked form holds what the dense one did |
| `SparseArray.SparseArray.InsertChunk` | src/rt/object/sparse_array.rs:195-220 | an inserted chunk keeps the offsets strictly increasing and every value in place |
| `SparseArray.SparseArray.KeysIncrease` | src/rt/object/sparse_array.rs:265-291 | slots stand for strictly increasing indices |
| `SparseArray.SparseArray.EveryKey` | src/rt/object/sparse_array.rs:265-291 | every index that holds a value has a slot |
| `Properties.DefinesExactly` | src/rt/object/mod.rs:212-266 | a definition is accepted if and only if the property may become what is asked for (nonconfigurable stays so, keeps its kind and enumerability, read-only data its value), and then it becomes exactly that |
| `Properties.DefinesNew` | src/rt/object/mod.rs:183-211 | a new property is accepted if and only if the object is extensible, with defaults for what is not given |
| `Properties.DefiningAgain` | src/rt/object/mod.rs:170-266 | defining the same thing again is accepted and changes nothing |
| `Properties.FixedStays` | src/rt/object/mod.rs:212-266 | no definition changes a property that is neither configurable nor writable |
| `Properties.FreezeAccepted` | src/rt/env/object.rs:305-310 | what Object.freeze asks for is always accepted and freezes exactly that property |
| `JsObject.JsObject.DefineOwnProperty` | src/rt/object/mod.rs:467-474 | defining a property does exactly what sections 8.12.9 and 15.4.5.1 say, keeps the length above every index, and only does what is permitted |
| `JsObject.JsObject.DefineOwnObject` | src/rt/object/mod.rs:170-266 | [[DefineOwnProperty]] of ordinary objects over the store |
| `JsObject.JsObject.DefineLengthProperty` | src/rt/object/mod.rs:284-383 | setting the length: a range error for what is no length, growing, or shrinking down to the last index that may not be deleted, which leaves the length just above it and everything below untouched |
| `JsObject.JsObject.DefineElementProperty` | src/rt/object/mod.rs:386-418 | defining an index: refused past a read-only length, otherwise defined, with the length extended |
| `JsObject.JsObject.DeleteDown` | src/rt/object/mod.rs:330-365 | deleting from the top down, slot by slot, removes exactly the indices from the new length on, or stops at the largest that is not configurable |
| `JsObject.JsObject.DeleteProperty` | src/rt/object/mod.rs:450-463 | deleting removes a configurable property, refuses for others, and changes nothing else |
| `JsObject.JsObject.Put` | src/rt/mod.rs:313-353 | [[Put]] of a data property: refused exactly if it cannot be put, and otherwise the value is set; a property that is made is plain data, writable, enumerable and configurable |
| `ObjectRules.AsLengthExactly` | src/rt/object/mod.rs:284-300 | the lengths an array can have are exactly the whole numbers up to the largest one |
| `JsObject.JsObject.GetKey` | src/rt/object/mod.rs:145-168 | enumeration by offset, items first, then the table: the name and its enumerable attribute, nothing for an empty slot, and the end exactly past the last one |
| `JsObject.JsObject.EveryName` | src/rt/object/mod.rs:145-168 | the slots name exactly the properties there are |
| `JsObject.JsObject.Freeze` | src/rt/env/object.rs:293-321 | freezing never fails, leaves every property as it was but frozen, and the object frozen |
| `JsObject.JsObject.IsFrozen` | src/rt/env/object.rs:395-426 | the answer is true if and only if the object is frozen |
| `JsObject.JsObject.Perform` | src/rt/object/mod.rs:170-463 | over any run of definitions, deletions and freezing: what is not configurable changes only as it may, and a frozen object stays exactly as it is |
| `ObjectRules.DefineArrayPermitted` | src/rt/object/mod.rs:269-428 | whatever is defined on an array, the length stays a number above every index and nothing forbidden happens |
| `ObjectRules.FrozenStays` | src/rt/env/object.rs:293-321 | permitted steps leave a frozen object as it is |
| `ObjectRules.LimitUnique` | src/rt/object/mod.rs:330-365 | there is only one length at which shrinking can stop |
| `ArrayMethods.Splice` | src/rt/env/array.rs:480-564 | on every array with holes whose elements can be changed: it panics if and only if the array would get too long or one of the stores is a dense run that cannot take an element where it has to go; otherwise the array becomes prefix, items, suffix with the right length, the result holds exactly the deleted elements, counted from a start that is the argument, or that far from the end if it is negative, kept within the array, and as many as asked for and there; overlapping moves in either direction lose nothing; on any other array only what is permitted happens |
| `ArrayMethods.FromTheEnd` | src/rt/env/array.rs:486-499 | a start counted from the end is the same element counted from the beginning |
| `ArrayMethods.RemovesMost` | src/rt/env/array.rs:486-499 | no more could be removed than is |
| `ArrayMethods.ShortSplices` | src/rt/env/array.rs:480-564 | it never panics while the array has at most 2048 elements before and after |
| `ArrayMethods.ChunkedSplices` | src/rt/env/array.rs:480-564 | nor if the store is in chunks, except for the copy of the deleted elements and the largest length |
| `ArrayMethods.SpliceWithoutRoom` | src/rt/env/array.rs:480-564 | two thousand items put in front of 641 elements panic |
| `ArrayMethods.MoveSuffix` | src/rt/env/array.rs:517-550 | the suffix ends up in its new place and the prefix stays, whichever way the elements have to move; it panics exactly if the end is past the largest index or the store cannot take some element |
| `ArrayMethods.CopyElements` | src/rt/env/array.rs:502-514 | the deleted elements, holes included, in a new array just long enough; it panics exactly if the new store cannot take one of them |
| `ArrayMethods.PutElement` | src/rt/env/array.rs:552-556 | putting an element on a plain array panics exactly if the index is none or the store overruns there |
| `ArrayMethods.Reverse` | src/rt/env/array.rs:270-301 | it panics if and only if some element of the first half is to go where the store, written to once more, overruns; otherwise every element, or hole, ends up at the mirrored index and the length stays |
| `ArrayMethods.ShortReverses` | src/rt/env/array.rs:270-301 | it never panics up to 2048 elements or in chunks |
| `ArrayMethods.ReverseWithoutRoom` | src/rt/env/array.rs:270-301 | reversing 641 elements in an array of length 3000 panics |
| `JsIterator.Iterator.Next` | src/rt/iterator.rs:52-89 | each call gives the next name that has not been seen and is enumerable, going up the prototypes |
| `JsIterator.Iterator.Drain` | src/rt/iterator.rs:52-89 | a whole enumeration gives exactly the names whose first property on the way up is enumerable, each once |
| `Enumeration.ObjectsMean` | src/rt/iterator.rs:52-89 | over the slots of objects: a name is given exactly if the nearest object that has the property has it enumerable (section 12.6.4) |
| `Enumeration.KeysList` | src/rt/object/mod.rs:145-168 | the slots of an object list its properties, with their attribute, and nothing else |
| `JsIterator.Iterator.Add` | src/rt/iterator.rs:91-115 | a name is remembered, in a larger array if need be, and reported new exactly if it is |
| `Uri.RoundTrip` | src/rt/env/global.rs:145-334 | for every text with paired surrogates, decoding what was encoded gives it back, for any two matching sets of characters |
| `Uri.BothPairsMatch` | src/rt/env/global.rs:336-354 | the sets of encodeURI and decodeURI match, and those of the component functions |
| `Uri.EncodesWellPaired` | src/rt/env/global.rs:289-331 | encoding succeeds if and only if the surrogates are well paired |
| `Uri.EncodedIsPlain` | src/rt/env/global.rs:289-331 | encoded text holds nothing but percent signs, upper-case hexadecimal digits and characters of the set |
| `Uri.SetsExactly` | src/rt/env/global.rs:336-354 | the four sets, character by character, as section 15.1.3 of ECMA-262 5.1 has them |
| `Uri.HexExactly` | src/rt/env/global.rs:199-334 | octets are written with upper-case digits and read in both cases |
| `Uri.Utf8Exactly` | src/rt/env/global.rs:234-241 | octets decode to a character if and only if they are its shortest UTF-8 form and it is no surrogate (section 3 of RFC 3629) |
| `Uri.Encode` | src/rt/env/global.rs:272-334 | the loop produces the encoded text, or fails |
| `Uri.Decode` | src/rt/env/global.rs:145-269 | the loop produces the decoded text, or fails, and keeps the escapes of reserved characters as written |
| `Uri.CountOctets` | src/rt/env/global.rs:199-205 | testing bit after bit counts the leading ones of the first octet |
| `JsonRoundTrip.RoundTrip` | src/rt/env/json/parser.rs:61-139 | for every tree of null, booleans, 64-bit integers, strings, arrays and objects with distinct keys, the text is JSON, and parsing it gives the tree and consumes exactly the text |
| `JsonRoundTrip.StringifyThenParse` | src/rt/env/json/writer.rs:270-297 | what is written for an acyclic value is JSON and parses back to what the value unfolds to |
| `JsonRoundTrip.ValueRoundTrip` | src/rt/env/json/parser.rs:76-139 | the same within a larger text: parsing stops exactly where the written value ends |
| `JsonStrict.ReadsExactly` | src/rt/env/json/parser.rs:61-139 | for every text: what the parser reads, repeated members included, is what the grammar of section 15.12.1 derives if and only if it rejects the text, or every token it meets fits, every key is followed by a colon, every point in a number is between two digits, no string has an escaped surrogate and no zero is negative; what it rejects cannot be derived |
| `JsonAgreement.AgreesExactly` | src/rt/env/json/parser.rs:61-139 | the objects it makes are those that the text means on every such text, and where no key is repeated on no other |
| `JsonStrict.TakesAllJson` | src/rt/env/json/parser.rs:61-139 | everything the grammar derives is read in the same shape, or panics, exactly if some token that is met does not fit |
| `JsonTokens.TokenAlike` | src/rt/env/json/lexer.rs:74-207 | on every text the lexer and the grammar have the same next token, except for loose fractions, escaped surrogates and negative zero; it panics exactly on integers beyond 64 bits, on a zero followed by a capital i, and on a string cut off in an escape |
| `JsonAgreement.MergedStd` | src/rt/env/json/parser.rs:92-117 | defining members one after the other, where a later one replaces an earlier one with the same key, means the same on texts and on UTF-16 |
| `JsonTokens.HexValueExactly` | src/rt/env/json/lexer.rs:180-207 | a character is a hexadecimal digit exactly if it is one of the sixteen, in lower or in upper case |
| `JsonTokens.DigitExactly` | src/rt/env/json/lexer.rs:126-143 | a character is a decimal digit exactly if it is one of the ten |
| `JsonExamples.ColonIsOptional` | src/rt/env/json/parser.rs:92-117 | an object with one member and no colon is taken |
| `JsonExamples.PointsAreLoose` | src/rt/env/json/lexer.rs:126-143 | so are a fraction that starts with its point and one that ends with it |
| `JsonExamples.LongIntegers` | src/rt/env/json/lexer.rs:126-143 | every integer beyond 64 bits is JSON and panics |
| `JsonExamples.TwoTo63` | src/rt/env/json/lexer.rs:126-143 | two to the 63rd is one |
| `JsonExamples.ZeroThenI` | src/rt/env/json/lexer.rs:126-143 | a zero followed by a capital i is no JSON and panics |
| `JsonExamples.MinusZeroReadsAsZero` | src/rt/env/json/lexer.rs:126-143 | negative zero is read as zero |
| `JsonExamples.EscapedPairs` | src/rt/env/json/lexer.rs:180-207 | an escaped pair of surrogates is read as two replacement characters instead of one character |
| `JsonExamples.CutEscapes` | src/rt/env/json/lexer.rs:164-178 | a string that ends after a backslash is no JSON and panics |
| `JsonExamples.RepetitionHides` | src/rt/env/json/parser.rs:92-117 | where a key is repeated what was read as something else may not show |
| `JsonNumber.NumberForms` | src/rt/env/json/lexer.rs:126-143 | what the lexer takes for an integer is a number of section 15.12.1.1, and what it takes for a fraction is one exactly if its points are between digits |
| `JsonNumber.NumbersAreRead` | src/rt/env/json/lexer.rs:126-143 | every such number is read whole, as an integer if it is one and fits 64 bits |
| `JsonParser.Parser.ParseAll` | src/rt/env/json/parser.rs:61-74 | the recursive parser over the lexer's state parses every text the way the grammar functions do, errors and panics included |
| `JsonParser.Parser.ParseArrayTree` | src/rt/env/json/parser.rs:119-139 | the loop over elements |
| `JsonParser.Parser.ParseObjectTree` | src/rt/env/json/parser.rs:92-117 | the loop over members, where a repeated key replaces the earlier value |
| `JsonLexer.LexesString` | src/rt/env/json/lexer.rs:145-207 | every string, control characters and quotes included, reads back from its written form |
| `JsonLexer.LexesInt` | src/rt/env/json/lexer.rs:126-143 | every 64-bit integer reads back from its decimal form, and reading stops where it ends |
| `JsonLexer.Lexer.Parse` | src/rt/env/json/lexer.rs:82-109 | one call reads one token or some white space, or fails or panics, as the lexical functions say |
| `JsonLexer.Lexer.Peek` | src/rt/env/json/lexer.rs:56-74 | looking ahead does not take the token |
| `JsonLexer.Lexer.ParseEscapeHex` | src/rt/env/json/lexer.rs:180-207 | hexadecimal escapes, a surrogate becoming the replacement character |
| `JsonWriter.RejectsExactlyCycles` | src/rt/env/json/writer.rs:146-154 | writing fails if and only if an object that is written can be reached from itself |
| `JsonWriter.Writer.WriteValue` | src/rt/env/json/writer.rs:270-297 | the writer appends the text of the tree the value unfolds to, restores its stack, and fails exactly if there is none |
| `JsonWriter.Writer.WriteElements` | src/rt/env/json/writer.rs:212-228 | arrays: undefined values are written as null |
| `JsonWriter.Writer.WriteMembers` | src/rt/env/json/writer.rs:158-189 | objects: undefined values and properties that are not enumerable are left out |
| `JsonRoundTrip.QuotesAsStandard` | src/rt/env/json/writer.rs:89-112 | which characters are written as themselves, which with a short escape, and that every other one is escaped by its code (section 15.12.3) |
| `JsonWriter.Writer.WriteString` | src/rt/env/json/writer.rs:89-112 | strings with their special characters escaped |

## Left out

Garbage collector:

- CopyingStrategy.Copying.Copy: sizes and addresses are counted in 8-byte words, the growth factors are reals, and the fill pattern written over the old space is not modelled.
- RootWalkers.RootHandlesWalker.Drain: which slots are walked is proved for the walkers; a collection takes any distinct slots, and the two are not composed.
- Memory mapping, pointer casts and the validation of walker layouts.

Compiler and interpreter:

- Finally blocks in statements: a break, continue or return that crosses one enters it only by the table lookup, which is not the structured meaning, so the fragment has try and catch only; the exception table itself is modelled with finally.
- CallFrame.Frame.GoToLeave: a leave that is pending while finally parts run; no block of the fragment has one.
- ItemCorrect.SimJump: a Leave is looked up in tables without finally parts, which is all the fragment produces.
- for-in, with, functions, closures, calls, member access, object and array literals, delete, casts, eval and the resolution of identifiers, which the model takes as slots.
- ExprForms.BalancedExactly: identifiers are told apart only by where they were resolved to, jumps are counted in instructions instead of going to labels, and an error thrown part way, which leaves operands behind, is not followed.
- CallFrame.Frame.CallBlock: the operand stack is unbounded, while the real one holds 8192 bytes.
- IrBuilder: sorting two exception blocks with the same range panics in the source; properly bracketed code has none.

Stores and objects:

- HashStore.HashStore.FindEntry: names hash to natural numbers instead of 32-bit ones, and an empty entry is a case of its own instead of all zeros.
- HashStore.GetPrime: that the numbers of the list are prime; the primality test uses an integer bound for its square root.
- SparseArray.SparseArray.SetValue: the items of a chunk are a sequence in the chunk, and a chunk that was never allocated counts as empty.
- JsObject.JsObject.GetKey: the properties of an object are a map and a list of names in some fixed order; that the hash table is such a map, and that each name comes up at one offset, is proved for the table itself.
- JsObject.JsObject.DefineLengthProperty: a new length is taken as a number; converting strings and objects to numbers is not modelled, and values are compared by equality, without NaN and negative zero.
- JsObject.JsObject.Put: accessors are not called and nothing is inherited from a prototype.
- Object.seal and Object.isSealed, which repeat the loops of freezing with a simpler request; string objects, whose characters are properties.
- ArrayMethods.Splice: the array has no accessors and inherits no index; exactness is stated for arrays whose elements and length can be changed.
- The other methods of arrays; shift and unshift move elements in the loops that splice has.
- JsIterator.Iterator.Next: the object and its prototypes are not changed during the enumeration.

Numbers:

- BigInt values are values: operations that change an argument return the new one, and work on a local array of words.
- BigInteger.Subtract: the subtraction that may wrap in a release build is modelled as wrapping.
- BigShift.LeftShift: joining shifted words with a bitwise or is modelled as addition, which is the same for words without common bits.
- BigDivide.InPlaceDecrement: below one the source underflows or asserts; where overflow checks are off the low word of zero wraps around instead.
- Scaling.ScaleDecimal: that the guess from the logarithm is the exponent of the first digit is a hypothesis; that the twenty bits of `Scaling.LeadsByPower` are not all zero is a condition on the exponent, and is not worked out for each power of ten.
- Digits.GenerateDigits: the error comes in as an argument; the layout of the text around the digits and the reading of floats are not modelled.

Round trips:

- Uri.Encode: converting the argument to a string.
- JsonLexer.LexesInt: numbers are the integers and the texts of fractions that were read; that both become the nearest float is not modelled.
- JsonParser.Parser.ParseAll: the line and column of errors; texts with unpaired surrogates, and what converting them does; keys are texts and not interned.
- JsonWriter.Writer.WriteMembers: the replacer, toJSON, property lists and inherited properties.

Other parts of the engine: its own lexer and parser, regular expressions, the interner, console, Math and Date.
