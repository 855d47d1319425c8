# kForth-32: compiler, virtual machine and library words, verified

kForth-32 compiles Forth source to byte code and runs it on a virtual machine written in
assembly. This project models the parts in which something can go subtly wrong, and proves that
they do what they are for. Check it with `dafny verify dfyconfig.toml`.

**Compiler and machine.** The control-structure words append bytes to a growing vector, remember
offsets of unresolved operands on separate stacks and patch them later.

- `Cells`, `ByteCode`: 32-bit cells as integers below 2^32 with their signed view, little-endian
  operands, the opcodes of `src/fbc.h` and the lengths of instructions.
- `ControlWords`, `ControlCompiler`, `WordCompiler`: every compile word as a step function on
  the vector and the stacks, the object that the words change in place proved against it, and how
  ordinary and immediate words are compiled.
- `CompilerLaws`: when compile words and `;` fail, what they do to the control stacks, where the jumps that
  they resolve lead, and what ABORT" prints.
- `JumpIntegrity`, `SafeRuns`: what any error-free sequence of compile words keeps, well nested
  or not, and what follows for every run of what `;` accepts.
- `Structured`, `LayoutFrame`, `LayoutCompile`: well-nested definitions as trees; the back-patching
  words produce for each the code that its structure lays out.
- `ByteVM`, `CellStacks`, `ByteMachine`: the fast machine as a step function, and as it runs on stacks
  in arrays.
- `WordLaws`: what each instruction does, by arithmetic, order, bits and bytes.
- `Meaning`, `Courses`, `CompilerCorrect`: the direct meaning of programs of definitions that may
  call each other and themselves. The compiled bytes terminate, and with these results, exactly
  if the meaning does, and get lost (in a stack underflow, a wild address or a word that the machine of the
  model does not have) exactly where the meaning is wrong.
- `OrderlyRuns`: the definitions for which this holds on every input, as they keep the return stack in order.
- `LoopCounts`: how often loops run and with which indices, LOOP and +LOOP, and exactly when `+LOOP` meets
  the standard.
- `TypedVM`, `TypedMachine`, `TypedProgress`: the type-checked machine refines the fast one, exactly when it
  refuses, and that it never does on programs that leave memory and the return stack alone, which it runs
  as they are meant.
- `CatchThrow`, `ExceptionWords`: CATCH and THROW in any nesting.

**Arithmetic on stacks in arrays, under signals.** Words are run access by access on arrays. Between
any two accesses a signal may come, whose handler overwrites everything from 16 cells beyond both
stacks (`Machines`) on. Each word's result is exact all the same.

- `Interleaving`: one theorem for all words, as sequences of accesses, that go less than 16 cells
  beyond the highest place of the stack pointer; `InterruptedWords` and `InterruptedDivision` apply it to
  words that move cells, ROLL's loop among them, and to UM/MOD and FM/MOD.
- `Wide`, `StackWords`, `Multiply`, `Divide`: doubles and triples, the words that move cells,
  products, and the division of 96 bits built from the processor's 64-by-32-bit divides.
- `Numerals`, `NumberWords`: numbers as digits, written and read back.

**Library words in Forth.** `PNumbers` and `Spigot` (numbers of any length in two's complement, and
the pi spigot), `Bits`, `Crc32` and `Crc16`, `XChars` and `XCharWords`, `Base64`; `Sequences` holds
what several of them share.

Methods follow the source's imperative form. Each is proved against a specification function or
value, and the theorems are about that.

## Where the code does less than it says

These are results of the model; each has its exact condition in the table below.

- `+LOOP` compares with limit + step in wrapping arithmetic. It misses a crossing of the
  limit exactly if that sum overflows (`LoopCounts.PlusLoopExact`, `LoopCounts.PlusLoopOverflow`).
- The type-checked machine's +LOOP tests for the saved address with the instruction pointer pushed on the
  processor's stack. Where the test fails, no error comes back; the processor goes on inside the byte
  code (`TypedVM.WildExactly`, `TypedVM.PlusLoopWild`).
- `>NUMBER` checks for overflow after the multiplication only, so that 2^64 in decimal reads as 0
  (`Numerals.OverflowUnreported`). It is exact if and only if the value is below 2^64, and otherwise
  silent if and only if no product with the base overflows (`Numerals.SilentExactly`).
- NUMBER? says that 2^64 in decimal is a number, and reads it as 0. It says so of 2^64 in hexadecimal too, and
  leaves no double at all, as it ignores the error that `>NUMBER` reports; with a sign, it then changes its
  caller's double (`Numerals.NumberQueryWrong`, `NumberWords.NumberQueryWord`). A count of more than 127 it
  reads as negative. It is right about a string of digits, with or without a sign, if and only if the
  count is at most 127 and the number is a signed double (`Numerals.NumberQueryExactly`).
- `p-` adds the signs of both numbers where it should subtract that of the subtrahend; it is exact
  if and only if the subtrahend is not negative (`PNumbers.LessExactly`, `PNumbers.LessFails`).
- An immediate word that is a pointer, a double or a floating-point constant is not taken off the
  code completely (`WordCompiler.TakenExactly`, `WordCompiler.PointerLeft`).
- `M*/` ignores the error of its division. For a positive divisor it is right if and only if the
  truncated quotient is a signed double (`Divide.MixedExactly`, `Divide.MixedUnreported`).
- `X-SIZE` aborts on xchars from 2^31, which XC!+ stores with seven bytes and XC@+ reads back
  (`XChars.XSizeAgrees`).
- XC-LEN is right if and only if the string is not empty (`XCharWords.LengthOfAll`).
- The comment at `src/vmc.c:1360-1363` says that `UTM/` uses about 12 cells beyond the stack. It
  writes 13 beyond, and `UTS/MOD` reads 15 beyond its moved pointer; 16 are kept free, which is enough.

## Model

| member | source | states |
|---|---|---|
| `Cells.FromToBytes` | src/ForthVM.cpp:419-436 | An operand written as four bytes, low byte first, is read back as the same cell |
| `ByteCode.PatchedTarget` | src/ForthVM.cpp:2236-2254 | Patching a jump's operand with the distance from its opcode makes it lead there, as the machine adds the operand to the opcode's address |
| `JumpIntegrity.ResolveSound` | src/ForthVM.cpp:419-427 | Writing the operand of one recorded jump closes exactly that one, keeps every instruction boundary, and leaves every other jump as sound as it was |
| `JumpIntegrity.StepKeeps` | src/ForthVM.cpp:2060-2341 | Every compile word, well nested or not, keeps the invariant: the bytes read as whole instructions, each unresolved operand is recorded exactly once over the five stacks of holes, every other JZ or JMP leads to an instruction start in 0..size, the stack of loops increases strictly and the stack of ?DOs is a subsequence of it |
| `JumpIntegrity.CompileKeeps` | src/ForthVM.cpp:2060-2341 | The same over every error-free sequence of compile words, from any state that has the invariant |
| `JumpIntegrity.LoopResolvesOwn` | src/ForthCompiler.cpp:285-316 | LOOP and +LOOP resolve exactly the LEAVEs compiled since their own DO, all of them to the byte behind the loop, leave older ones alone, and can only take off their own ?DO |
| `JumpIntegrity.AbortQuoteKeeps` | src/ForthVM.cpp:2102-2128 | The constant 25-byte skip of ABORT" leads to the end of the bytes it compiles, so the invariant is kept |
| `JumpIntegrity.FinishSound` | src/ForthVM.cpp:947-983 | What `;` accepts has no open hole; every jump of the finished code leads to the start of one of its own instructions, never to its end; every RECURSE holds the code address |
| `JumpIntegrity.DefinitionSound` | src/ForthVM.cpp:939-994 | The same for any list of recognised words compiled from empty stacks and accepted by `;` |
| `ControlCompiler.Compiler.Else` | src/ForthVM.cpp:2225-2241 | ELSE on the object's own vector and stack is its step function, error code included |
| `ControlCompiler.Compiler.Then` | src/ForthVM.cpp:2243-2257 | THEN likewise |
| `ControlCompiler.Compiler.Repeat` | src/ForthVM.cpp:2152-2180 | REPEAT likewise: it resolves the newest WHILE only if that is newer than the newest BEGIN |
| `ControlCompiler.Compiler.Back` | src/ForthVM.cpp:2182-2212 | UNTIL and AGAIN: a jump back to the newest BEGIN |
| `ControlCompiler.Compiler.QueryDo` | src/ForthVM.cpp:2073-2087 | ?DO by way of IF and ELSE, with its mark on the stack of ?DOs |
| `ControlCompiler.Compiler.Leave` | src/ForthVM.cpp:2089-2099 | LEAVE outside every loop is an error and changes nothing; otherwise it unloops and records its open jump |
| `ControlCompiler.Compiler.AbortQuote` | src/ForthVM.cpp:2102-2128 | ABORT" appends the bytes of its step function |
| `ControlCompiler.Compiler.Loop` | src/ForthCompiler.cpp:285-316 | LOOP and +LOOP: the loop over the stack of LEAVEs resolves and removes what its step function says |
| `ControlCompiler.Compiler.EndOf` | src/ForthVM.cpp:2305-2322 | ENDOF records its own jump before it looks for an OF, also when that is an error |
| `ControlCompiler.Compiler.EndCase` | src/ForthVM.cpp:2268-2289 | ENDCASE resolves every ENDOF down to the mark of its CASE |
| `ControlCompiler.Compiler.Semicolon` | src/ForthVM.cpp:939-994 | `;` reports that it is outside a definition, or the last of its four checks that fails, and then has only appended a RET; or it adds the code with every RECURSE resolved to the words, and ends the definition |
| `CompilerLaws.FinishExactly` | src/ForthVM.cpp:947-953 | `;` succeeds if and only if all seven stacks of open structures are empty, and otherwise reports the last kind that is not, by its code |
| `CompilerLaws.StepFailsExactly` | src/ForthVM.cpp:2089-2322 | A compile word fails if and only if the stack of the structure that it continues is empty, with the code of that structure |
| `CompilerLaws.StacksAfter` | src/ForthVM.cpp:2060-2341 | What each word pushes to the control stacks and takes off them, well nested or not |
| `CompilerLaws.ForwardAfter` | src/ForthVM.cpp:2225-2322 | ELSE, THEN and ENDOF make the newest jump of their kind lead behind what they compile |
| `CompilerLaws.BackAfter` | src/ForthVM.cpp:2182-2212 | UNTIL and AGAIN compile a jump to the newest BEGIN |
| `CompilerLaws.RepeatAfter` | src/ForthVM.cpp:2152-2180 | REPEAT too, and makes the newest WHILE lead behind it if that is newer than the BEGIN |
| `CompilerLaws.AbortQuotePrints` | src/ForthVM.cpp:2102-2128 | What ABORT" compiles jumps behind itself on 0, and otherwise prints the name by address and count, the counted message and an end of line, and aborts |
| `ControlCompiler.Compiler.Words` | src/ForthCompiler.cpp:275-360 | The compiler's loop over recognised words stops at the first error, and the invariant holds after every word before it |
| `WordCompiler.CompileName` | src/ForthVM.cpp:1012-1052 | COMPILE-NAME appends the opcode and operand of an entry, and nothing else |
| `WordCompiler.OneInstruction` | src/ForthVM.cpp:1017-1050 | Every entry compiles to exactly one whole instruction |
| `WordCompiler.OperandOf` | src/ForthVM.cpp:1012-1052 | Which cell of an entry becomes the operand: the code address of a definition, the parameter address of a pointer or address, the cells there of an integer, a double or a floating-point constant, the address that an intrinsic word calls |
| `WordCompiler.TakeOff` | src/ForthCompiler.cpp:338-349 | An immediate word's bytes are taken off the end and executed with a RET |
| `WordCompiler.TakenExactly` | src/ForthCompiler.cpp:338-349 | Taking off an immediate word restores the code if and only if the word is no pointer, no double and no floating-point constant; then what is executed is its whole instruction |
| `WordCompiler.PointerLeft` | src/ForthCompiler.cpp:338-349 | An immediate pointer leaves four bytes of its instruction in the code, and the last byte of its address is executed |
| `WordCompiler.CompileWord` | src/ForthCompiler.cpp:322-353 | A recognised word is compiled; with no precedence nothing is executed; an immediate one is taken off and executed with a RET; a nondeferred one executes all that has been compiled, unless a definition is being compiled, which it makes nondeferred |
| `WordCompiler.ExecutedAtOnce` | src/ForthCompiler.cpp:188-212 | What stays compiled and what is executed for every precedence, 0 included, and either state, for words that are taken off exactly |
| `LayoutCompile.CompileStmt` | src/ForthVM.cpp:2060-2341 | The words of every well-nested statement compile without error; their code, patched as they go, has the layout that the statement's structure gives, and every control stack is as before but for the statement's own LEAVEs and RECURSEs |
| `LayoutCompile.CompileDefinition` | src/ForthVM.cpp:939-994 | `;` accepts every well-nested definition, with that layout and every RECURSE resolved |
| `ByteMachine.FastVM.Instruction` | src/vm32-fast.s:308-344 | One turn of the machine's dispatch loop on its registers, stacks in arrays and memory is the step function |
| `ByteMachine.FastVM.Loop` | src/vm32-fast.s:670-743 | LOOP and +LOOP on the cells of the return stack: the index, the stacks and the instruction pointer after either way out |
| `ByteMachine.FastVM.Execute` | src/vm32-fast.s:308-344 | The dispatch loop is the k-fold step function, and stops where that stops, after n steps, or before a stack is full |
| `WordLaws.Adds` | src/vm32-fast.s:1334-1340 | + leaves the sum modulo 2^32 |
| `WordLaws.Subtracts` | src/vm32-common.s:518-524 | - leaves what the top cell has to be added to for the one below, modulo 2^32 |
| `WordLaws.Multiplies` | src/vm32-common.s:526-539 | * leaves the product modulo 2^32 |
| `WordLaws.Counts` | src/vm32-common.s:467-485 | 1+, 1- and NEGATE modulo 2^32 |
| `WordLaws.Compares` | src/vm32-fast.s:176-191 | =, U<, < and > leave all bits or none, by equality, by unsigned and by signed order |
| `WordLaws.ComparesZero` | src/vm32-fast.s:193-203 | 0= and 0< likewise |
| `WordLaws.PushesFlags` | src/vm32-common.s:413-428 | TRUE leaves all bits, FALSE none |
| `WordLaws.WorksOnBits` | src/vm32-fast.s:134-147 | AND keeps each bit that both cells have, NOT turns each bit over |
| `WordLaws.Stores` | src/vm32-fast.s:122-130 | ! leaves the cell at the address, low byte first, and every other byte as it was |
| `WordLaws.Fetches` | src/vm32-fast.s:113-120 | @ and A@ bring the cell at the address, low byte first |
| `WordLaws.MovesOne` | src/vm32-common.s:213-233 | DROP, DUP, ?DUP and >R on the top cell |
| `WordLaws.MovesTwo` | src/vm32-fast.s:969-1019 | SWAP, OVER, NIP and TUCK on two cells |
| `WordLaws.MovesPair` | src/vm32-fast.s:1077-1093 | 2DROP and 2DUP |
| `WordLaws.MovesThree` | src/vm32-fast.s:977-994 | ROT |
| `WordLaws.MovesBack` | src/vm32-fast.s:520-618 | R> and R@, and >R followed by R> changes nothing |
| `WordLaws.MovesIndex` | src/vm32-fast.s:652-693 | I brings the index of the inner loop, J that of the outer one, and UNLOOP ends the inner |
| `WordLaws.Branches` | src/vm32-common.s:336-365 | Literals push their operand; JMP goes to its own address plus the operand, JZ only if the cell that it takes is 0 |
| `WordLaws.Calls` | src/vm32-fast.s:595-608 | A call goes to its operand, and RET then to behind the call; with nothing saved since the entry RET ends the run |
| `WordLaws.Executes` | src/vm32-fast.s:565-577 | EXECUTE of a code address likewise |
| `CompilerCorrect.Sim` | src/vm32-common.s:336-365 | Running the back-patched bytes of any placed statement reaches the data stack, return stack and memory of the statement's direct meaning, at its end, behind the loop for LEAVE, or at a RET for EXIT; gets lost where the meaning is wrong; and runs at least as long as the fuel where the meaning has none left |
| `CompilerCorrect.RunsAsMeant` | src/vm32-fast.s:308-360 | The same for whole programs of definitions that call each other and themselves |
| `CompilerCorrect.CompilerCorrect` | src/ForthVM.cpp:2060-2341 | For every program of well-nested definitions that leaves its return addresses alone: the machine returns with some stacks and memory if and only if they are the program's meaning, gets lost in a stack underflow or the like if and only if the meaning is wrong, and runs for ever if and only if the program has none |
| `OrderlyRuns.OrderlyCorrect` | src/vm32-fast.s:308-743 | The same three equivalences without any condition on the run, for every input of every program whose definitions neither move cells between the stacks nor leave a loop's cells behind at an EXIT; and what it returns with has the return stack as it was |
| `OrderlyRuns.Keeps` | src/vm32-fast.s:346-743 | No statement of such a program, calls, RECURSE, UNLOOP EXIT and LEAVE included, leaves anything else on the return stack than it should, however far it gets |
| `OrderlyRuns.LevelParts` | src/ForthVM.cpp:2130-2262 | Which programs these are: control structures of parts that keep the loops' cells keep them |
| `OrderlyRuns.LevelCase` | src/ForthVM.cpp:2264-2322 | The same for CASE |
| `OrderlyRuns.LevelLoop` | src/ForthCompiler.cpp:284-317 | The same for loops, and in them for LEAVE and UNLOOP EXIT |
| `OrderlyRuns.LeavesLevel` | src/vm32-fast.s:346-618 | The same for literals, calls, RECURSE and every word but those that move cells between the stacks |
| `SafeRuns.StepInside` | src/vm32-common.s:336-365 | From any instruction of an accepted definition, well nested or not, any instruction but a return or call leads to another instruction of it; LOOP and +LOOP, if the address on top of the return stack is one of the definition |
| `SafeRuns.RunInside` | src/vm32-common.s:336-365 | The same over runs of any length: while there are no returns and calls, and loops find an address of the definition on the return stack, the machine never stands within an instruction or outside the code |
| `LoopCounts.DoRuns` | src/vm32-fast.s:670-693 | DO ... LOOP runs its body exactly (limit - start) mod 2^32 times, 2^32 times if they are equal, ?DO ... LOOP no time then; the indices are start, start + 1, ..., and the return stack is as before, for every body that keeps the return stack |
| `LoopCounts.EmptyLoop` | src/vm32-fast.s:670-693 | A loop with nothing in it ends, for every start and limit, and leaves nothing |
| `LoopCounts.RoundIndex` | src/vm32-fast.s:652-668 | After n rounds I brings the start plus n modulo 2^32, and J does inside another loop |
| `LoopCounts.EvalMore` | src/vm32-fast.s:670-743 | A meaning that is reached does not depend on the fuel |
| `LoopCounts.PlusLoopExact` | src/vm32-fast.s:695-743 | +LOOP ends if and only if the step, taken one by one, crosses the boundary between limit - 1 and limit, and limit + step (or limit - 1 + step for a negative step) is a signed cell |
| `LoopCounts.PlusLoopMeetsStandard` | src/vm32-fast.s:695-743 | For a limit and a step, +LOOP does what section 6.1.0140 of Forth 2012 says at every index if and only if that sum does not overflow |
| `LoopCounts.PlusLoopGoesOn` | src/vm32-fast.s:695-743 | As long as no step crosses the limit without an overflow, +LOOP goes round with the index moved by the step, for every body that keeps the return stack |
| `LoopCounts.PlusDoRuns` | src/vm32-fast.s:695-743 | DO and ?DO ... +LOOP end after the first round whose step crosses the limit without an overflow; round j has the index start plus the steps before it modulo 2^32, and the return stack is as before |
| `LoopCounts.FourByFour` | src/vm32-fast.s:695-743 | 10 0 DO 4 +LOOP runs with the indices 0, 4 and 8 and leaves nothing |
| `LoopCounts.PlusIndex` | src/vm32-fast.s:708-739 | The rounds move the index by the sum of their steps modulo 2^32, and nothing else on the return stack |
| `LoopCounts.PlusLoopOverflow` | src/vm32-fast.s:695-743 | Index 2147483646, limit 2147483647 and step 2 cross the boundary, but +LOOP goes on |
| `TypedVM.TypedRefinesFast` | src/vm32.s:423-478 | Every run of the type-checked machine that fails no type test is the fast machine's run on instruction pointer, stacks and memory, with exactly one type for each cell of each stack after every instruction |
| `TypedVM.FailsExactly` | src/vm32.s:23-36 | @, A@ and ! fail if and only if the cell they use as an address is not typed as one; no other word fails |
| `TypedVM.FlowFailsExactly` | src/vm32.s:459-478 | RET and LOOP report an error if and only if the cell on top of the return stack is not typed as an address; +LOOP and the other words of control report none |
| `TypedVM.WildExactly` | src/vm32.s:967-973 | The processor goes on inside the byte code if and only if the instruction is +LOOP and the cell on top of the return stack is not typed as an address: the jump to the error is taken with the instruction pointer pushed |
| `TypedVM.PlusLoopWild` | src/vm32.s:967-973 | A loop whose saved start has been replaced by 7 runs wild at +LOOP, where the fast machine goes on |
| `TypedVM.TypesMoveAlong` | src/vm32.s:1298-1330 | The words that move cells move their types in the same way |
| `TypedVM.ComputedTypes` | src/vm32.s:1823-1838 | A sum is an address if and only if an operand is; differences and products keep the lower operand's type; comparisons and AND give integers |
| `TypedVM.FetchedTypes` | src/vm32.s:23-36 | @ leaves an integer and A@ an address; ! takes both types away |
| `TypedVM.SavedTypes` | src/vm32.s:150-191 | >R and R> move the type with the cell; R@, I and J copy it; UNLOOP drops three |
| `TypedVM.LeftTypes` | src/vm32.s:242-275 | Literals have the type of their opcode, flags and constants are integers, and the words of one operand keep its type |
| `TypedVM.SavedAddresses` | src/vm32.s:766-840 | What calls, DO and EXECUTE save is typed as an address |
| `TypedProgress.NeverFails` | src/vm32.s:423-1019 | The type-checked machine never fails a type test on the code of well-nested definitions without words that access memory or the return stack, UNLOOP, and EXIT in a loop: calls, RECURSE, RET, DO, LEAVE, LOOP and +LOOP always find the address with its type |
| `TypedProgress.TameRuns` | src/vm32.s:423-1019 | So the whole run of such a program is the fast machine's, with a type for every cell |
| `TypedProgress.TypedAsMeant` | src/vm32.s:423-1019 | It returns with some stacks and memory if and only if they are the program's meaning, gets lost if and only if that is wrong, and runs for ever otherwise |
| `TypedProgress.TameParts` | src/ForthVM.cpp:2130-2322 | Which programs these are: control structures of such parts are such programs |
| `TypedProgress.StepGood` | src/vm32.s:423-1019 | Each of their instructions leads from a point where the return stack has the addresses that the structure says to another such point |
| `TypedMachine.CheckedVM.Instruction` | src/vm32.s:423-478 | One turn of the type-checked machine's loop on its four stacks in arrays is its step function, with the way in which it ends the run; a word that fails its type test has changed nothing |
| `TypedMachine.CheckedVM.Loop` | src/vm32.s:939-1019 | LOOP and +LOOP test the type of the loop's start before anything else: LOOP reports the error, +LOOP runs wild; otherwise both machines' way out or round |
| `TypedMachine.CheckedVM.Execute` | src/vm32.s:423-457 | A run on arrays is the k-fold step function, up to n steps or a full stack; unless it fails a type test it is the fast machine's, with a type for every cell |
| `Machines.Machine.Signal` | src/vmc.c:1336-1385 | A signal whose handler has stack effect ( n -- ) leaves both stacks, the 16 cells beyond each, both pointers, the instruction pointer and the entry level as they were, whatever the handler writes |
| `Machines.Machine.Enter` | src/vm32-fast.s:308-344 | A nested entry of the machine restores the instruction pointer and the entry level, whatever its run does with them |
| `Interleaving.AfterSame` | src/vmc.c:1358-1380 | An access to a cell less than 16 beyond the highest place of the pointer reads the same, and has the same effect, however the cells farther away differ |
| `Interleaving.Execute` | src/vmc.c:1336-1385 | Any word, as a sequence of accesses told by what it has read, whose run to its end stays so near ends as it does without signals, with signals between all its accesses: same pointers, stacks and cells read |
| `InterruptedWords.Interrupted` | src/vmc.c:1336-1385 | What is proved of an uninterrupted run of a word that leaves the return stack alone holds on the machine under signals |
| `InterruptedWords.MinusRotRuns` | src/vm32-fast.s:996-1009 | -ROT exactly, by way of the cell beyond the stack |
| `InterruptedWords.MinusRotWord` | src/vm32-fast.s:996-1009 | -ROT on the machine does that with signals between all its accesses, and nothing else is changed |
| `InterruptedWords.TwoOverRuns` | src/vm32-fast.s:77-89 | 2OVER exactly |
| `InterruptedWords.TwoOverWord` | src/vm32-fast.s:77-89 | 2OVER on the machine does that with signals between all its accesses, and nothing else is changed |
| `InterruptedWords.TwoRotRuns` | src/vm32-fast.s:1103-1122 | 2ROT exactly, by exchanges |
| `InterruptedWords.TwoRotWord` | src/vm32-fast.s:1103-1122 | 2ROT on the machine does that with signals between all its accesses, and nothing else is changed |
| `InterruptedWords.PickRuns` | src/vm32-fast.s:1021-1030 | PICK exactly, for every place in the stack |
| `InterruptedWords.PickWord` | src/vm32-fast.s:1021-1030 | PICK on the machine does that with signals between all its accesses, and nothing else is changed |
| `InterruptedWords.RollRuns` | src/vm32-fast.s:1032-1061 | ROLL exactly, for every place in the stack: its loop moves u + 1 cells after it has moved the pointer |
| `InterruptedWords.RollWord` | src/vm32-fast.s:1032-1061 | ROLL on the machine does that with signals between all its accesses, and nothing else is changed |
| `InterruptedDivision.UmSlashModRuns` | src/vm32-fast.s:1491-1515 | UM/MOD leaves quotient and remainder, or reports a zero divisor, or overflow if and only if the quotient is no cell, and then changes nothing; its divisions never fault |
| `InterruptedDivision.UmSlashModWord` | src/vm32-fast.s:1491-1515 | UM/MOD on the machine does that with signals between all its accesses, error code included, and nothing else is changed |
| `InterruptedDivision.FmSlashModRuns` | src/vm32-fast.s:1807-1840 | FM/MOD leaves the floored quotient and its remainder for either sign of the divisor; it reports a zero divisor, which it has dropped, and faults if and only if the truncated quotient is no signed cell |
| `InterruptedDivision.FmSlashModWord` | src/vm32-fast.s:1807-1840 | FM/MOD on the machine does that with signals between all its accesses, error code included, and nothing else is changed |
| `InterruptedDivision.SignsOfRemainders` | src/vm32-fast.s:1807-1840 | What the quotient towards zero leaves is smaller than the divisor and has the dividend's sign; what the floored one leaves has the divisor's |
| `StackWords.Dup` | src/vm32-common.s:220-233 | DUP exactly, with signals between its accesses, and nothing else changed |
| `StackWords.Over` | src/vm32-fast.s:34-38 | OVER likewise |
| `StackWords.Swap` | src/vm32-fast.s:21-32 | SWAP likewise |
| `StackWords.Rot` | src/vm32-fast.s:977-995 | ROT likewise |
| `StackWords.TwoDup` | src/vm32-fast.s:40-52 | 2DUP likewise, although it writes two cells beyond the stack before it moves the pointer |
| `StackWords.TwoSwap` | src/vm32-fast.s:58-75 | 2SWAP likewise |
| `StackWords.ToR` | src/vm32-fast.s:91-100 | >R moves the top cell to the return stack, with signals anywhere |
| `StackWords.FromR` | src/vm32-fast.s:102-111 | R> brings it back, although it moves the return stack's pointer before it reads |
| `Multiply.TNeg` | src/vm32-fast.s:279-302 | The sign change of triples is negation modulo 2^96 |
| `Multiply.UdmStar` | src/vm32-fast.s:1552-1577 | UDM* leaves the exact 96-bit product, with signals anywhere |
| `Multiply.DsStar` | src/vm32-fast.s:1459-1489 | DS* leaves the exact signed product of every double and cell, the most negative included |
| `Multiply.DPlus` | src/vm32-common.s:253-266 | D+ is addition modulo 2^64 |
| `Multiply.DMinus` | src/vm32-common.s:268-281 | D- is subtraction modulo 2^64 |
| `Multiply.DNegate` | src/vm32-fast.s:250-266 | DNEGATE is negation modulo 2^64 |
| `Multiply.DAbs` | src/vm32-fast.s:1399-1423 | DABS leaves the magnitude of every signed double as an unsigned one |
| `Divide.CarrySmall` | src/vm32-fast.s:1733-1760 | The counted carries of the three remainders are less than the divisor, so that the last division cannot fault; the other divisions have smaller dividends by their contracts |
| `Divide.QuotientExact` | src/vm32-fast.s:1693-1770 | q1 + q5 + q6 + q7 with its carries and q2 + q4 are exactly the quotient of the triple, and r7 is the remainder |
| `Divide.UtmSlash` | src/vm32-fast.s:1678-1770 | UTM/ gives the exact quotient, or reports a zero divisor, or overflow if and only if the quotient needs more than 64 bits, and then changes nothing; with signals between all its accesses |
| `Divide.SharedQuotient` | src/vm32-fast.s:1693-1770 | The routine behind both divisions: the quotient's low double, with q3 left 6 cells and the last remainder 15 cells beyond the pointer it returns |
| `Divide.OverflowExactly` | src/vm32-fast.s:1689-1692 | The high cell's own quotient is not zero if and only if the whole quotient needs more than a double |
| `Divide.UtsSlashMod` | src/vm32-fast.s:1579-1606 | UTS/MOD gives triple quotient and remainder of every 96-bit number, reading q3 and r7 back from 6 and 15 cells beyond the moved stack pointer, with signals between all its accesses |
| `Divide.MStarSlash` | src/vm32-fast.s:1772-1805 | M-star-slash as it is: the unsigned quotient of the magnitudes with the sign put on, if it is a double; otherwise it goes on as if its division had succeeded, and what it leaves is stated, cell by cell |
| `Divide.MixedExactly` | src/vm32-fast.s:1772-1805 | For a positive divisor, M-star-slash leaves the quotient truncated toward zero (section 8.6.1.1820 of Forth 2012) if and only if that is a signed double |
| `Divide.TruncatedIs` | src/vm32-fast.s:1772-1805 | What the truncated quotient leaves is smaller than the divisor and has the dividend's sign |
| `Divide.MixedUnreported` | src/vm32-fast.s:1794-1805 | 2^62 times 2 by 1 leaves -2^63 and no error |
| `NumberWords.Sharp` | src/vmc.c:703-745 | # divides by the base and puts the digit of the remainder in front of the buffer's string, by UTM/, UDM* and D- |
| `NumberWords.Sharps` | src/vmc.c:748-761 | #S writes exactly the digits of the double and leaves 0 |
| `Numerals.ValueOfDigits` | src/vmc.c:748-761 | The digits of #S have the number as their value |
| `Numerals.DigitsAre` | src/vmc.c:575-579 | The digits are 0 to 9 and A to Z, and accepted as digits of a base are exactly the first ones of these |
| `Numerals.NoLeadingZero` | src/vmc.c:748-761 | There is no leading zero |
| `Numerals.DoubleDigits` | src/vmc.c:748-761 | A double has at most 64 digits, which the buffer holds |
| `NumberWords.ToNumberWord` | src/vmc.c:801-848 | `>NUMBER` on the machine's stack, by UDM* and D+, is the conversion of Numerals, its one overflow check included, with what it leaves there |
| `Numerals.ToNumberExactly` | src/vmc.c:815-838 | A string of digits is read as its value, to its end, if and only if that value is below 2^64 |
| `Numerals.ToNumberResult` | src/vmc.c:815-838 | An overflow is reported if and only if some digits, as a value modulo 2^64, times the base are 2^64 or more; otherwise the result is the value modulo 2^64 |
| `Numerals.SilentExactly` | src/vmc.c:824-836 | Digits are read wrongly without a report if and only if their value is 2^64 or more and no digits before the last give such a product |
| `Numerals.SharpsToNumber` | src/vmc.c:693-848 | `<# #S #>` and then >NUMBER from zero give every double back in every base 2..36, with nothing of the string left |
| `Numerals.OverflowUnreported` | src/vmc.c:824-836 | 2^64 in decimal is read as 0, and no overflow is reported |
| `NumberWords.UDot0` | src/ForthVM.cpp:1268-1294 | The loop that prints from the highest power down writes exactly the digits that #S builds from the last, for every cell and base |
| `NumberWords.UdDot` | src/ForthVM.cpp:1313-1338 | Both ways of UD. print the same digits |
| `NumberWords.DDot` | src/ForthVM.cpp:1341-1358 | D. prints the sign and the digits of the magnitude for every signed double |
| `NumberWords.NumberQueryWord` | src/vmc.c:931-967 | NUMBER? on the machine's stack, for any counted string, is the conversion of Numerals; where `>NUMBER` reports an overflow, no double is left, the flag tells if the second cell of the product is 0, and a sign is put on the caller's double below |
| `Numerals.NumberQueryResult` | src/vmc.c:931-967 | Of any string of a sign or none, digits and whatever follows, NUMBER? makes the value of the digits modulo 2^64 with the sign put on, and says that it is a number if and only if nothing follows; or it leaves no double, if and only if some digits modulo 2^64 times the base are 2^64 or more |
| `Numerals.NumberQueryExactly` | src/vmc.c:931-967 | NUMBER? gives the number that such a string means, and says so, if and only if nothing follows the digits, the count is at most 127, and the number is a signed double |
| `Numerals.NumberQueryWrong` | src/vmc.c:954-965 | 2^64 in decimal is said to be a number, and read as 0; in hexadecimal it is said to be a number, and no double is left |
| `Numerals.SignedRoundTrip` | src/vmc.c:931-967 | NUMBER? reads every signed double back that D. prints, the minimum included |
| `CatchThrow.EnteredCatch` | forth-src/ans-words.4th:128-131 | CATCH leaves its frame (own return address, data stack address, previous handler) right above the return address of what it executes |
| `CatchThrow.Thrown` | forth-src/ans-words.4th:138-148 | THROW restores the handler and both stack pointers from the frame and puts the code in place of the xt |
| `CatchThrow.ExecEnds` | forth-src/ans-words.4th:128-148 | In any nesting of calls and CATCHes, a program under an active CATCH returns with its part of the return stack used up and everything above as it was, or a THROW in it has gone to behind the innermost active CATCH with what that had saved and with the code thrown on top |
| `CatchThrow.CatchResumes` | forth-src/ans-words.4th:128-148 | Whatever a body does, CATCH of it goes on behind its own call or fails: after a THROW that no inner CATCH took, with the stack as deep as on entry and the non-zero code that was thrown on top; after none, with 0 above what the body left; always with return stack, handler and never popped cells as they were |
| `CatchThrow.ThrownIsCaught` | forth-src/ans-words.4th:128-148 | With room on both stacks nothing fails: CATCH of a program that throws c goes on with c in place of the xt |
| `CatchThrow.ReturnIsCaught` | forth-src/ans-words.4th:128-136 | With room on both stacks, CATCH of a body that returns does not fail, and goes on with 0 above what the body has left |
| `CatchThrow.ThrowsNothing` | forth-src/ans-words.4th:138-148 | THROW of 0 drops it and goes on |
| `CatchThrow.CallGoesOn` | src/vm32-fast.s:346-360 | Under an active CATCH a call of a body that returns goes on behind it, with the return stack as it was |
| `CatchThrow.WordsGoOn` | src/vm32-fast.s:21-110 | Under an active CATCH words that find their cells and room for their values go on, with the values above what they have left and the return stack as it was |
| `ExceptionWords.Stacks.BeginCatch` | forth-src/ans-words.4th:128-132 | CATCH up to EXECUTE, word by word on stacks in arrays, is the function used above |
| `ExceptionWords.Stacks.EndCatch` | forth-src/ans-words.4th:133-136 | CATCH after EXECUTE likewise |
| `ExceptionWords.Stacks.ThrowCode` | forth-src/ans-words.4th:138-148 | THROW likewise, with the range checks of SP! and RP! |
| `ExceptionWords.Stacks.SetSp` | src/ForthVM.cpp:2580-2601 | SP! sets the pointer to the cell below the address, or fails if and only if that is outside the stack |
| `ExceptionWords.Stacks.SetRp` | src/ForthVM.cpp:2604-2620 | RP! likewise for the return stack |
| `PNumbers.CarriedValue` | forth-src/pispigot.4th:39 | ?carry makes the value of the number what its cells and the carry above them amount to, with one more cell only if needed |
| `PNumbers.CarriedShort` | forth-src/pispigot.4th:39 | ?carry adds no cell if and only if the value is in the range of the cells that are there |
| `PNumbers.PNumber.Extend` | forth-src/pispigot.4th:57-58 | extend adds cells of the sign and keeps the value |
| `PNumbers.ExtendBoth` | forth-src/pispigot.4th:59-64 | ?extend makes both numbers as long as the longer one and keeps both values |
| `PNumbers.Times` | forth-src/pispigot.4th:44-51 | p* multiplies a number of any length and sign by any unsigned cell, exactly, with at most one more cell |
| `PNumbers.Plus` | forth-src/pispigot.4th:69-76 | p+ adds two numbers of any lengths and signs, exactly, with at most one more cell than the longer |
| `PNumbers.Less` | forth-src/pispigot.4th:81-88 | p- gives the difference less twice the power of its cells if the subtrahend is negative |
| `PNumbers.LessExactly` | forth-src/pispigot.4th:81-88 | p- is exact if and only if the subtrahend is not negative |
| `PNumbers.LessFails` | forth-src/pispigot.4th:81-88 | 0 less -1 is 1 - 2^33 |
| `Spigot.Series.ComposeLeft` | forth-src/pispigot.4th:112-113 | compose< multiplies z by the given matrix |
| `Spigot.Series.ComposeRight` | forth-src/pispigot.4th:116-117 | compose> multiplies the given matrix, with its middle entry negative, by z |
| `Spigot.TermKeeps` | forth-src/pispigot.4th:105-113 | The next term of the series keeps q and t positive, z at 3 not negative and z at 4 below 10 |
| `Spigot.SeriesIs` | forth-src/pispigot.4th:105-113 | After n terms from the start z takes x to x times n! / (3 5 ... (2 n + 1)), plus the first n terms of 2 (1 + 1/3 + 2!/(3 5) + 3!/(3 5 7) + ...) |
| `Spigot.FirstDigit` | forth-src/pispigot.4th:129-131 | No digit agrees before the first term, and 3 after it |
| `Spigot.RemoveKeeps` | forth-src/pispigot.4th:131 | So does taking out a digit that z at 3 and z at 4 agree on |
| `Spigot.RemoveShifts` | forth-src/pispigot.4th:131 | Taking out n takes it from the number that z is at any point, and moves the rest up by one decimal place |
| `Spigot.Series.AtThree` | forth-src/pispigot.4th:122-123 | The repeated subtraction ends within ten rounds, with the integer part of z at 3 and the rest less one more t |
| `Spigot.Series.SameAtFour` | forth-src/pispigot.4th:127 | The flag says if z at 4 is below that integer part plus one |
| `Spigot.Series.Digit` | forth-src/pispigot.4th:129-131 | pidigit emits n in 0..9 only if n is at most z at 3 and z at 4 is below n + 1, for z the exact product after the first number of terms for which any n is so, and then takes n out; if none is found, there is none after any of the terms tried; the bounds on z are kept over any number of digits |
| `Crc32.Coefficients` | forth-src/crc-32.4th:50-59 | The constant is the polynomial with the coefficients of the standard |
| `Crc32.UpdateByByte` | forth-src/crc-32.4th:90-108 | The loop over the bits divides the remainder with the byte as eight more bits |
| `Crc32.BuildTable` | forth-src/crc-32.4th:112-116 | The table has each byte's remainder from zero |
| `Crc32.Crc` | forth-src/crc-32.4th:137-139 | CRC by the table equals the division bit by bit for every remainder and byte |
| `Crc32.Crc32s` | forth-src/crc-32.4th:149-150 | CRC32S of every message is the inverted remainder of the bit-by-bit division |
| `Crc32.CheckResidue` | forth-src/crc-32.4th:149-150 | Feeding the check itself back, low byte first, leaves DEBB20E3 hexadecimal for every message: the start value and the inversion are those of the source |
| `Crc32.Example` | forth-src/crc-32.4th:152-155 | The check of the source's example is 6FBEAAE7 hexadecimal |
| `Crc32.Residue` | forth-src/crc-32.4th:34-36 | Feeding back the four bytes of the uninverted check, low byte first, gives 0, for every message |
| `Crc32.FindsBurst` | forth-src/crc-32.4th:137-150 | Messages of the same length that differ only within four bytes in a row have different checks, always |
| `Crc16.SlowCrc` | forth-src/fsl/crc.4th:99-104 | The slow crc divides bit by bit |
| `Crc16.FillTable` | forth-src/fsl/crc.4th:115-117 | The table has at each byte the slow remainder of that byte, plus the byte itself |
| `Crc16.Crc` | forth-src/fsl/crc.4th:115-126 | The fast crc by the byte-swapped table equals the slow one for every 16-bit remainder and byte |
| `Crc16.Xmodem` | forth-src/fsl/crc.4th:135-137 | >xmodem is the slow division over the whole string, from zero |
| `Crc16.Reflected` | forth-src/fsl/crc.4th:142-155 | >x.25 and >crc-ccitt are the reversed remainder of the slow division of the reversed bytes |
| `Crc16.ReflectedIs` | forth-src/fsl/crc.4th:142-155 | That is the remainder of the reflected division, with polynomial 8408 hexadecimal, of the bytes as they are |
| `Crc16.X25` | forth-src/fsl/crc.4th:142-145 | >x.25 is that reflected division from all bits high |
| `Crc16.CrcCcitt` | forth-src/fsl/crc.4th:152-155 | >crc-ccitt is that reflected division from all bits low |
| `Crc16.Coefficients` | forth-src/fsl/crc.4th:93 | The polynomial is x^16 + x^12 + x^5 + 1, and the reflected one has the same coefficients in reverse |
| `Crc16.Examples` | forth-src/fsl/crc.4th:168-182 | The checks of the source's example are DDFC, 2364 and A5A9 hexadecimal |
| `XChars.EncodeIsReference` | forth-src/xchars.4th:50-60 | The bytes that XC!+ builds from the right with shrinking masks are the layout of section 2 of RFC 2279, and for values from 2^31 the same with seven bytes |
| `XChars.RoundTrip` | forth-src/xchars.4th:78-85 | XC@+ undoes XC!+ for every 32-bit value, whatever follows |
| `XChars.SizeWritten` | forth-src/xchars.4th:38-46 | XC-SIZE is the number of bytes written, for every cell |
| `XChars.XSizeAgrees` | forth-src/xchars.4th:23-34 | X-SIZE by the first byte is XC-SIZE below 2^31; above, it aborts |
| `XChars.XSizeTells` | forth-src/xchars.4th:23-34 | X-SIZE of any string tells by the ones that its first byte begins with, and aborts on a byte that cannot be the first, FE and FF included |
| `XChars.Examples` | forth-src/xchars.4th:50-60 | The bytes of an example of RFC 2279 and of the ends of some sizes |
| `XCharWords.Store` | forth-src/xchars.4th:50-60 | XC!+ writes these bytes at the address and no others, by way of the stack with a 0 at its bottom |
| `XCharWords.StoreIfFits` | forth-src/xchars.4th:67-73 | XC!+? stores if and only if the xchar fits, never writes beyond the given length, and otherwise changes nothing |
| `XCharWords.FetchNext` | forth-src/xchars.4th:78-85 | XC@+ on memory is the decoding function, and tells where it would read beyond memory |
| `XCharWords.LengthOfAll` | forth-src/xchars.4th:117-120 | XC-LEN of encoded xchars, whatever follows them in memory, is their number if and only if there is at least one |
| `XCharWords.EmptyCounted` | forth-src/xchars.4th:117-120 | XC-LEN of the empty string before an xchar is 1 |
| `XCharWords.Count` | forth-src/xchars.4th:117-120 | XC-LEN's loop on memory counts what the function above counts |
| `Base64.OctetsBack` | forth-src/base64.4th:334-342 | The sextets of three bytes give them back; values of marks only touch bytes that are discarded |
| `Base64.AlphabetIs` | forth-src/base64.4th:208-210 | The alphabet is that of section 5.2 of RFC 1521, and the mark |
| `Base64.OtherValue` | forth-src/base64.4th:212-222 | Every other character has the value 65 |
| `Base64.SextetsAre` | forth-src/base64.4th:228-240 | Which bits of three bytes each of the four characters stands for |
| `Base64.Examples` | forth-src/base64.4th:228-258 | M, Ma and Man are TQ==, TWE= and TWFu |
| `Base64.RoundTrip` | forth-src/base64.4th:349-359 | Decoding an encoded line gives its bytes, although the loop goes on behind the line: what lies there never reaches them (section 5.2 of RFC 1521) |
| `Base64.SpanTells` | forth-src/base64.4th:344-359 | The line without its marks, times three by four, is the number of bytes encoded |
| `Base64.FileRoundTrip` | forth-src/base64.4th:269-272 | Any sequence of bytes, encoded in lines of 57 and decoded line by line, comes back, whatever the buffer has behind each line |
| `Base64.Pad.EncodeLine` | forth-src/base64.4th:260-267 | Encode-a-Line in the counted buffer, with two nul bytes behind its input, is the encoding function |
| `Base64.Pad.DecodeLine` | forth-src/base64.4th:349-359 | Decode-a-Line in the counted buffer is the decoding function, on the line and what follows it in memory, whatever byte is in front of it |
| `Base64.Pad.SaveLength` | forth-src/base64.4th:344-347 | Save-Ascii-Line-Length, which looks at the byte in front of a line that is a single mark, and may then save -1 |
| `Base64.SpanBytes` | forth-src/base64.4th:344-359 | That byte does not matter: three quarters of what is saved, truncated, are as many bytes either way, and no more than were decoded |

## Left out

- NumberWords.NumberQueryWord: after an overflow of a string with a sign, where the caller has fewer than two cells on the stack, the sign change reaches below its bottom, and nothing is stated.
- Spigot.Series.Digit: the outer search of pidigit gets a number of attempts; that it ends is not proved, as this needs the analysis of the series. K stays below 2^30.
- XCharWords.LengthOfAll: the signed comparison of addresses, which is wrong where a string reaches over 2^31, is not modelled.
- Base64.RoundTrip: lines are of at least one byte; Decode-a-Line discards an empty line before it does anything.
- ControlCompiler.Compiler.Semicolon: of the entry in the wordlist only the code is modelled. RECURSE outside a definition is not.
- ByteVM has the words that the control structures compile and some thirty others; PTR, 2VAL, FVAL, CALLADDR and EXECUTE through an execution token are parsed but not run. Both machines stop before a stack is full, which the source does not notice.
- TypedVM has the words of ByteVM; after a failed type test only the error code is stated, and nothing after +LOOP has run wild.
- Words that access memory, call C functions or use the floating-point unit are not given as sequences of accesses; the theorem of Interleaving is for the two stacks. Nested signals are those that come while a handler runs, which is arbitrary.
- CatchThrow: ordinary words of a program appear by the cells they pop and leave; words that move the stack pointers themselves, other than CATCH and THROW, do not appear, and neither do the type stacks.
- STS/REM: it loses a borrow (`src/vm32-fast.s:1616-1635`), so that no division is claimed of it.
- SEARCH, whose comparison can go beyond the text.
- Bit reversal by the table of bytes: the table holds what the loop over eight bits computes, and the loop is used.
- P-numbers have sequences of cells of any length; the sizes of their buffers are not modelled.
- Reading and writing of files and terminals, the text reader, EVALUATE, COMPILE, and POSTPONE; the compiler starts from recognised words.
- Memory of the dictionary, wordlists and FORGET, which add only easy members.
- Floating point, whose results depend on rounding and on a foreign library.
- Machine registers and raw pointers: stacks are indexed, and code has abstract addresses.
