# The Dragon Pascal compiler, verified

Dragon is a one-pass compiler from a subset of Pascal to x86-64 assembly, written in C. While it walks the
syntax tree it checks names and types against a symbol table, takes registers from a small mutable pool,
spills by `push` and `pop`, invents labels and appends instructions. This project models that walk and what
it stands on, and proves that what comes out means what went in.

The project has two halves, joined where the compiler asks the symbol table for frame offsets.

**The code generator.** `Source` gives the integer fragment of the language its meaning: 64-bit literals,
variables, `+ - *`, comparisons as conditions, assignment, `if`, `while`, sequences, `write` and `writeln`.
`Machine` is the part of x86-64 that the emitted code uses: fourteen registers, `rsp`, `rbp`, word memory, the
zero, sign and overflow flags of a comparison, labels and a trace of the output; what a call leaves below the
stack pointer and what the kernel leaves in `rcx` and `r11` is arbitrary. `Code` says what is emitted, as a function of how many temporaries
are live. `ExprCorrect`, `StmtCorrect`, `Labels` and `Program` prove that the emitted program terminates
exactly when the source program does, and then with the same output and the same variables; a program that
never ends prints the same as its source.

Line 44 of `dragon/analysis.c` names a spilled register `REGS[ret.need_restore]`, which is always `rcx`,
where `REGS[ret.which]` is evidently meant. Both readings are modelled (`Intended` and `Written`). The
intended one is proved correct for expressions of every depth. For the written one `Spill` characterises
what is computed instead (an expression truncated to its leftmost leaf below the spill point) and proves
that an expression shape is compiled correctly if and only if live temporaries plus register need are at
most fifteen. `DivMod` treats the division sequence, whose `cdq` extends only 32 bits and which itself uses
`rax` and `rdx`, and gives the exact operands and the exact registers for which quotient and remainder are
right; `Quotients` lifts this to nested divisions.

`CodeGen` is the compiler's own walk, an object whose methods update the register pool, the overflow
counter, the label counter and the instruction list; each method is proved to append exactly what `Code`
says and to accept exactly the programs that obey the semantic rules. `MainProgram` states the end-to-end
results, for every frame whose size an int can hold, and `CodeGen.Compile` is the compiler as one method.

**The symbol table.** `Lists` is the doubly linked list with its inline first node, `Tables` the chained
hash table on top of it, `Vectors` the growable arena, `Hashing` the hash function. `ScopeChains` puts hash
tables on a list and refines a stack of maps; `Scoping` proves that this stack resolves every name to its
last live declaration in the history. `Symbols`, `TypeArena` and `Declarations` are the table's operations
as functions, with the well-foundedness of the type arena, the meaning of type comparison and the layout of
frames; `Denotations` says what a type id means and that every declared name stands for what its declaration
says; `SymbolTable` is the object on the heap, proved against them. `Frames` and `Globals` connect the
table to the frame of `main`.

**Functions and procedures.** `Bodies` says what is checked in a body: all binary operators, assignments,
calls of declared subprograms and of the library routines. `Typing` gives the rules about types as a relation
that knows nothing of the walk, and proves that exactly the bodies that obey them are accepted. `Subprograms`
says what the analysis of nested subprograms checks and leaves behind, `LocalFrames` and `FormalFrames` where
locals, formals and the result lie, and `Captures` which variables get a display slot; `FunctionContexts` is
the walk that saves and restores the per-function context, and `Units` runs it over whole programs.
`UnitPrograms` proves that its checks and the rules of `MainProgram` accept the same programs. `Nonlocals` runs
bodies on one cell per declared variable and proves that an accepted function never assigns to a variable
declared outside it, whatever its terms mean; `BodyStores` shows that such a run is the store semantics of
`Source`. `Arguments` says which calls of declared subprograms obey the rules about arguments.

Things worth knowing about the code, all of them theorems below:

- Declaring a function also binds its formals as variables of the scope it is declared in
  (`Declarations.FormalsLeakExactly`), and so the name of a function stops denoting its result slot exactly
  when a directly nested subprogram has a formal of that name (`Subprograms.ResultNamedExactly`). The function
  is still accepted: the assignment to its name counts as its return, although it goes to the formal at offset
  -1 (`HiddenResults.HiddenAccepted`).
- An operator between two spilled temporaries is undone by the `pop` that follows it
  (`Spill.WrittenRightExactlyWhenFits`).
- With its operands in registers other than `rax` and `rdx`, the quotient is right exactly for nonnegative
  dividends with bit 31 clear, among them all from 0 to 2^31 - 1 (`DivMod.DivRightExactlyWhenExtends`), and the
  remainder exactly when the error of the extension is a multiple of the divisor and the division does not fault
  (`DivMod.ModRightExactlyWhen`). With an operand in `rax` or `rdx`, which happens from ten live temporaries
  on, already 7 and 2 give a wrong answer or a fault (`DivMod.AlwaysRightExactlyWhenClear`,
  `DivMod.ClearExactly`).
- A declared subprogram's arguments keep their registers after the call. A library routine called as a statement
  frees the first register, whoever owns it: that changes nothing if no temporary is live, gives back the
  register of an argument if one is, and leaves a gap in the table if there are more
  (`FunctionContexts.Fcx.AnalyzeProc`, `FunctionContexts.Fcx.FirstFreedLive`).
- The number of arguments of a declared subprogram is checked, but their types are only reported: rules 5.3 and
  6.2 hold for all accepted calls if and only if there are no formals (`Arguments.TypesCheckedExactly`). Every
  accepted call that breaks them is reported, and no other (`Arguments.ReportedExactly`).
- The offset of the first formal counts declarations and not names, so the last of several one-word formals lies
  above the words at offsets 0 and 8 if and only if every declaration has a single name
  (`FormalFrames.LastFormalAboveExactly`).
- Nothing stops a function from reading into a variable of an outer scope (`Nonlocals.ReadingEscapes`).
- The running frame offset is an int and an array's size is an unsigned 64-bit product, so an array with reversed
  bounds moves the offset backwards: after eleven integers, `array [12..1] of integer` makes the next integer
  share the word of the first (`LocalFrames.ReversedShares`). Locals stay between the old offset and the new one
  if and only if their sizes add up to less than 2^31, and then they do not overlap
  (`LocalFrames.LocalsWithinExactly`).
- The size of an array counts upper - lower elements, so whatever is declared after an array begins where the
  array's last element lies (`LocalFrames.LastElementShared`).
- Comparing void with void aborts the compiler; this is the only case in which comparing two types does not
  decide their equality (`TypeArena.TypesEqDecides`).

An exit through `span_err` is modelled as rejection; nothing is promised about the state after it. Integers
of the source language are 64-bit words and wrap around.

## Model

| member | source | states |
|---|---|---|
| CodeGen.Compile | dragon/analysis.c:756-817 | The compiler as one method: it accepts exactly the legal programs, emits exactly the specified code, and with the intended spill register and a frame whose size an int can hold that code, started with any memory of words, ends with a store and an output exactly when the program does |
| MainProgram.IntendedProgramCorrect | dragon/analysis.c:756-817 | With the intended spill register, for every legal program of integer globals whose frame size an int can hold and every initial memory of words the emitted program ends with a store and an output if and only if the source program terminates with them |
| MainProgram.IntendedProgramPrints | dragon/analysis.c:756-817 | The same for output at any moment, so also for programs that never end: what the machine has printed after n steps the source prints with n units of fuel, and what the source prints the machine prints |
| MainProgram.OneResult | dragon/analysis.c:756-817 | An emitted program has one result at most |
| MainProgram.WrittenProgramMeans | dragon/analysis.c:44 | As written, the emitted program ends as the truncated source program does, and the truncation is the identity exactly when every expression fits the register need |
| MainProgram.LegalFrame | dragon/analysis.c:781-796 | The frame of a legal program gives different variables different words at nonnegative aligned offsets, and reserves them, if and only if an int can hold its size |
| MainProgram.OffsetsAreLayout | dragon/analysis.c:782-796 | The offsets that the symbol table hands out are 0, 8, 16, ... in the order of declaration, as an int counts |
| Program.MainMeansSeen | dragon/analysis.c:795-813 | Prologue, body and exit: the emitted main yields a result if and only if the (possibly truncated) body terminates with it, for every memory and every accepted body |
| Program.IntendedCompilerCorrect | dragon/analysis.c:33-47 | The same for the body itself under the intended spill scheme |
| Program.WrittenCompilerCorrect | dragon/analysis.c:33-47 | The same for the body itself under the written scheme when its expressions fit |
| Program.EndComesFromSource | dragon/analysis.c:795-813 | If the emitted main ends at all, the source terminates with the same store and output |
| Program.NoOtherOutput | dragon/analysis.c:795-813 | Whatever main has printed after n steps, the source prints with n units of fuel |
| Program.SourceOutputAppears | dragon/analysis.c:795-813 | Whatever the source has printed when its fuel runs out or it ends, main prints |
| Program.PrologueRuns | dragon/analysis.c:795-796 | The prologue points rbp at the frame and reserves it, touching no memory |
| Program.EpilogueRuns | dragon/analysis.c:813 | The epilogue reaches the exit system call with status 0 and leaves memory and stack alone |
| StmtCorrect.StmtSteps | dragon/analysis.c:543-655 | If the source ends within the fuel, the code reaches its own end with a matching store, the same output, the same rsp and rbp and nothing else above rsp changed; if the fuel runs out, the code gets after at least that many steps to a state that matches where the source was cut short, output included |
| StmtCorrect.StmtsSteps | dragon/analysis.c:626-630 | The same for sequences |
| StmtCorrect.IteSteps | dragon/analysis.c:601-619 | The same for if: exactly the selected arm runs |
| StmtCorrect.WdoSteps | dragon/analysis.c:631-650 | The same for while, for any number of iterations |
| StmtCorrect.AssignRuns | dragon/analysis.c:551-562 | The code of an assignment stores the value in the variable's word and changes no other variable |
| StmtCorrect.StoreRuns | dragon/analysis.c:559 | A store through one variable's address leaves every other variable as it was |
| StmtCorrect.CondRuns | dragon/analysis.c:388-414 | The code of a comparison leaves 1 or 0 in the first register, as the comparison holds or not |
| StmtCorrect.CompareRuns | dragon/analysis.c:394-411 | cmp, setcc on the low byte and movzx turn two words into 0 or 1, as the comparison holds or not |
| StmtCorrect.ConditionCode | dragon/analysis.c:396-404 | The condition code chosen for an operator, read off the flags of the wrapped 64-bit difference of two words, holds exactly when the comparison does |
| StmtCorrect.BranchSteps | dragon/analysis.c:609-610 | Condition and conditional jump fall through when the condition holds and go to the label otherwise |
| StmtCorrect.PrintOne | dragon/analysis.c:242 | push, call, add rsp prints the value and keeps variables and stack, whatever the callee leaves below rsp |
| StmtCorrect.WriteStmtRuns | dragon/analysis.c:212-248 | write and writeln print their arguments in order, then the newline |
| StmtCorrect.NewlineRuns | dragon/rt.s:68-84 | The newline routine prints one newline and keeps variables and stack, although the kernel clobbers rcx and r11 |
| ExprCorrect.ExprRuns | dragon/analysis.c:349-475 | For any expression and any number of live temporaries the code leaves the value of what it computes in its register, keeps every live register and rbp, and leaves on the stack exactly the word its owner will pop |
| ExprCorrect.CombineOk | dragon/analysis.c:424-437 | Operator and release of the right operand, spilled or not: the exact result under the intended scheme, the left operand under the written one once both operands are spilled |
| ExprCorrect.OperandsApart | dragon/analysis.c:41-44 | The rotation of the overflow counter never gives both operands of an operator the same register |
| ExprCorrect.PathRuns | dragon/analysis.c:162-204 | The code of a variable loads the word at rbp plus its offset, with a spill if need be |
| ExprCorrect.LitRuns | dragon/analysis.c:469-473 | The code of a literal |
| Source.EvalWrapsExact | dragon/analysis.c:424-429 | Wrapping at every operator gives the word congruent to the exact value, so intermediate overflow is harmless |
| Source.HoldsLaws | dragon/analysis.c:396-404 | What fixes the comparisons: less is the transitive order with a below a + 1, greater its converse, exactly one of less, equal and greater holds, and the other three are negations |
| Source.ExactLaws | dragon/analysis.c:424-429 | What fixes the operators: sum and product by recursion on the right operand, difference as the inverse of the sum |
| Spill.IntendedRightAtEveryDepth | dragon/analysis.c:33-57 | With REGS[ret.which] every expression of any depth is compiled correctly from any number of live temporaries |
| Spill.WrittenRightExactlyWhenFits | dragon/analysis.c:41-47 | With REGS[ret.need_restore] every expression of a shape is compiled correctly if and only if it is a leaf or live + need is at most 15 |
| Spill.SeenWhenFits | dragon/analysis.c:41-47 | The truncation is the identity exactly when the expression fits |
| Spill.Expose | dragon/analysis.c:41-47 | For every shape that does not fit, literals for its leaves on which the code computes a different value |
| Spill.SixteenOnes | dragon/analysis.c:41-47 | The bound is reached: a sum of sixteen ones needs sixteen registers and comes out as fifteen |
| Spill.ResultIsSeen | dragon/analysis.c:349-475 | What the code leaves in the register is always the value of the truncation, and nothing else |
| Spill.NoSpillExactly | dragon/analysis.c:33-47 | A push is emitted if and only if live + need exceeds 14 |
| Spill.StmtWhenFits | dragon/analysis.c:543-655 | A statement is its own truncation if and only if all its expressions fit |
| DivMod.DivRightExactlyWhenExtends | dragon/analysis.c:415-418 | With operands outside rax and rdx, the block yields the truncated quotient if and only if the dividend is one that cdq extends correctly; this includes divisions that fault |
| DivMod.ModRightExactlyWhen | dragon/analysis.c:420-422 | With operands outside rax and rdx, the mod block yields the truncated remainder if and only if the division does not fault and the divisor divides the error of the extension, and a negative dividend as well |
| DivMod.BlockRuns | dragon/analysis.c:415-423 | With operands outside rax and rdx, the blocks for div and mod restore rax, rdx, the stack and every register but the result |
| DivMod.BlockFaults | dragon/analysis.c:415-423 | With operands outside rax and rdx, no run gets past a division whose quotient does not fit |
| DivMod.WrongExtensionWrongQuotient | dragon/analysis.c:417 | A wrongly extended dividend never gives the right quotient, for any divisor |
| DivMod.RemainderAgrees | dragon/analysis.c:421 | When the remainder of the wrongly extended dividend is that of the dividend |
| DivMod.DivisionLaws | dragon/analysis.c:415-422 | What fixes quotient and remainder: together they give the dividend back, the remainder is smaller than the divisor and not of the sign opposite to the dividend's |
| DivMod.AlwaysRightExactlyWhenClear | dragon/analysis.c:415-423 | For two different registers, the block is right for every correctly extended dividend and every nonzero divisor if and only if neither of them is rax or rdx |
| DivMod.ClearExactly | dragon/analysis.c:11 | For which numbers of live temporaries the operands stay out of rax and rdx, under both spill schemes |
| Quotients.QuotientRuns | dragon/analysis.c:357-437 | Expressions with div and mod nested in any way are computed correctly from any number of live temporaries, spilled or not, while divisions stay out of rax and rdx and dividends extend correctly |
| Quotients.QuotientAssignRuns | dragon/analysis.c:551-562 | An assignment of such an expression stores its value in the variable's word and changes no other variable |
| Quotients.QuotientWriteRuns | dragon/analysis.c:242 | Writing such an expression prints its value |
| Quotients.QuotientTestRuns | dragon/analysis.c:388-414 | A comparison of two such expressions leaves 1 or 0, as it holds or not |
| Quotients.DivideOk | dragon/analysis.c:415-437 | The division and the release of its right operand, spilled or not: the answer is in the register and nothing else has changed |
| Quotients.DivExprRuns | dragon/analysis.c:415-423 | While at most eight temporaries are live, one division of fitting arithmetic operands is right for every correctly extended dividend and nonzero divisor |
| Labels.EachLabelOnce | dragon/analysis.c:601-650 | The code of a statement defines each label from the counter before to the counter after exactly once and no other |
| Labels.JumpsStayInside | dragon/analysis.c:601-650 | Every jump of a statement goes to a label of that statement |
| Labels.OnceMeansUnique | dragon/analysis.c:606-617 | Labels defined at most once have at most one position, so a jump has one target |
| Labels.MainLabels | dragon/analysis.c:795-813 | All labels of an emitted main are unique |
| CodeGen.Acx.RegInit | dragon/analysis.c:21-26 | The pool starts with no register used |
| CodeGen.Acx.RegGimme | dragon/analysis.c:28-48 | From k live temporaries to k + 1: used registers stay a prefix of the table, the counter stays 6 plus the outstanding pushes, and the owner and the push are those of the k-th temporary; from any pool, the counter grows exactly when a register is pushed |
| CodeGen.Acx.RegTakeItBack | dragon/analysis.c:50-57 | Gives back the last temporary, by a pop exactly when it was taken by a push; from any pool, exactly one register or one push is released |
| CodeGen.Acx.Locate | dragon/analysis.c:149-166 | What the symbol table says about a variable of main: declared or not, and at which offset |
| CodeGen.Acx.AddressOf | dragon/analysis.c:137-166 | The address of a variable in a new temporary |
| CodeGen.Acx.AnalyzeExpr | dragon/analysis.c:349-475 | Accepted exactly when every name is declared; then one more temporary is live and exactly the specified code is appended |
| CodeGen.Acx.AnalyzeBin | dragon/analysis.c:357-437 | The same for binary operators: the operands' registers are taken and released in LIFO order |
| CodeGen.Acx.AnalyzeQuotient | dragon/analysis.c:357-437 | The same for expressions with div and mod: the code appended is the one that `Quotients` proves right |
| CodeGen.Acx.AssignQuotient | dragon/analysis.c:551-562 | An assignment of such an expression is accepted exactly when all names are declared, and its code is the specified one |
| CodeGen.Acx.AnalyzeCond | dragon/analysis.c:388-414 | Accepted exactly for comparisons of declared names; a condition that is not boolean is rejected |
| CodeGen.Acx.AnalyzeStmt | dragon/analysis.c:543-655 | Accepted exactly as the rules say; the pool returns to where it started, the label counter grows by twice the ifs and whiles, and exactly the specified code is appended |
| CodeGen.Acx.AnalyzeAssign | dragon/analysis.c:551-562 | The same for assignment |
| CodeGen.Acx.AnalyzeIte | dragon/analysis.c:601-619 | The same for if |
| CodeGen.Acx.AnalyzeWdo | dragon/analysis.c:631-650 | The same for while |
| CodeGen.Acx.AnalyzeEach | dragon/analysis.c:626-630 | The same for a list of statements |
| CodeGen.Acx.AnalyzeCall | dragon/analysis.c:294-308 | write and writeln are accepted exactly when the output library is imported and all names are declared, and dispatched on the magic number of the routine that the name denotes |
| CodeGen.Acx.MagicOf | dragon/analysis.c:301-302 | The routine that the name denotes has the magic number of write or writeln |
| CodeGen.Acx.AnalyzeMagic | dragon/analysis.c:212-248 | Each argument is computed, pushed, printed and released; the routine with the magic number of writeln ends the line |
| CodeGen.Acx.Analyze | dragon/analysis.c:756-817 | A program is accepted exactly when it is legal, and then exactly the specified program is emitted |
| Globals.DoImports | dragon/analysis.c:124-134 | Accepted exactly when every import is input or output; write and writeln can be called afterwards exactly when output is among them |
| Globals.DeclareGlobals | dragon/analysis.c:788-792 | Accepted exactly when all names are distinct; the variables then tile the frame in order |
| Globals.RegisterLibrary | dragon/analysis.c:114-122 | Registering a library declares its two routines with their magic numbers and keeps the frame |
| Frames.NamesHold | dragon/symbol.c:312-325 | Declarations into main's scope are accepted exactly when the names are new and distinct, and then lie one word apart, as an int counts |
| Frames.HoldsFrame | dragon/symbol.c:179-199 | The table describes a frame in which no two variables of main share a word if and only if an int can hold its size |
| Units.ImportStandsFor | dragon/analysis.c:114-134 | After its import each routine of a library can be called and has its own magic number, and no other function name changes |
| Lists.List.Empty | dragon/util.c:23-32 | A new list is empty |
| Lists.List.Append | dragon/util.c:38-43 | Links two nodes in both directions |
| Lists.List.Add | dragon/util.c:67-80 | Appends one element; next and prev stay mirror images and last stays the last node; the asserts of the linking step never fire |
| Lists.List.Pop | dragon/util.c:82-91 | From a list of at least two elements, removes and returns the last one |
| Lists.List.Last | dragon/util.c:93-96 | The last element, none for an empty list |
| Lists.List.Forward | dragon/util.h:29-34 | The forward traversal visits exactly the contents in order |
| Lists.List.Backward | dragon/util.h:45-50 | The backward traversal visits exactly the contents in reverse |
| Lists.ReversedAt | dragon/test_util.c:15-33 | The two traversals are mirror images, position by position |
| Vectors.PtrVec.WithCapacity | dragon/util.c:108-118 | A new vector is empty, and ready for growth if its capacity is not zero |
| Vectors.PtrVec.Reserve | dragon/util.c:120-129 | Doubles the capacity exactly when it is reached and keeps every element |
| Vectors.PtrVec.Push | dragon/util.c:131-136 | Appends one element and returns its index; earlier indices keep their elements and the length stays below the capacity |
| Vectors.PtrVec.GrowthIsLinear | dragon/util.c:120-136 | Any number n of pushes moves fewer than 2n words in total |
| Hashing.HashPjw | dragon/util.c:216-226 | The loop computes the specified fold of the bytes, and the hash is below 2^60 |
| Hashing.ShortStrings | dragon/util.c:216-226 | One ASCII character hashes to itself, two are read as a number to the base 16 |
| Hashing.FoldMoves | dragon/util.c:220-223 | A word without a top nibble is left alone; otherwise the top nibble moves down |
| Hashing.CharsAreSigned | dragon/util.c:219 | A char from 0x80 on counts as negative |
| Tables.HashTable.constructor | dragon/util.c:156-169 | A new table is the empty map |
| Tables.HashTable.Lookup | dragon/util.c:173-180 | Lookup is lookup in the map that the table represents, for any hash function |
| Tables.HashTable.Insert | dragon/util.c:182-202 | Insert updates that map at one key and nowhere else; every key stays in its own bucket and no bucket holds a key twice |
| Tables.HashTable.Find | dragon/util.c:183-190 | The walk along the bucket finds the entry of a key if there is one |
| Tables.HashTable.Overwrite | dragon/util.c:192-196 | Overwriting an entry in place changes exactly one binding |
| Tables.HashTable.InsertNew | dragon/util.c:197-201 | A new entry at the end of its bucket adds exactly one binding |
| Scoping.ResolveIsLastLive | dragon/README.md:135-139 | In every history of entering, leaving and declaring, innermost-first lookup in the stack of scopes gives the last live declaration of the name, or none (rules 1.2, 1.3, 1.5) |
| Scoping.RoundTrip | dragon/symbol.c:124-135 | Entering, any well-nested activity and leaving restores the chain and with it every resolution |
| Scoping.BlockKeepsOuter | dragon/README.md:139 | Inside a block only the block's own scopes change (rule 1.5) |
| ScopeChains.StabScope.constructor | dragon/symbol.c:45-63 | A new scope has three empty tables |
| ScopeChains.ScopeChain.Push | dragon/symbol.c:124-130 | Entering adds an empty innermost scope and leaves all others alone, on the heap |
| ScopeChains.ScopeChain.Pop | dragon/symbol.c:132-135 | Leaving removes the innermost scope and leaves all others alone, on the heap |
| ScopeChains.ScopeChain.Find | dragon/symbol.c:137-177 | The walk over the list from its end is innermost-first lookup |
| ScopeChains.ScopeChain.FindLocal | dragon/symbol.c:373-386 | A lookup in the last scope alone |
| ScopeChains.ScopeChain.Bind | dragon/symbol.c:196-197 | Inserting into the last scope's hash table rebinds one name in one namespace of one scope |
| SymbolTable.Stab.constructor | dragon/symbol.c:65-114 | A new table has the six built-in types at their fixed ids and no scope |
| SymbolTable.Stab.BuiltinTypes | dragon/symbol.c:73-111 | The built-in types with their names and sizes, in the order of their ids |
| SymbolTable.Stab.EnterScope | dragon/symbol.c:124-130 | Entering a scope is one event of the history and changes no arena entry |
| SymbolTable.Stab.LeaveScope | dragon/symbol.c:132-135 | Leaving a scope is one event of the history and changes no arena entry |
| SymbolTable.Stab.ResolveId | dragon/symbol.c:137-177 | The three lookups return the id of the last live declaration of the name, failure if there is none |
| SymbolTable.Stab.HasLocal | dragon/symbol.c:373-386 | Whether the innermost scope declares the name |
| SymbolTable.Stab.AddVariable | dragon/symbol.c:179-199 | One more variable with the running offset, bound in the innermost scope, and the offset of the next one |
| SymbolTable.Stab.ResolveTypeId | dragon/symbol.c:271-310 | Resolving a type changes the arenas and the innermost scope exactly as specified and returns the specified id |
| SymbolTable.Stab.ResolveComplexId | dragon/symbol.c:213-269 | The same for pointers, records, arrays and signatures |
| SymbolTable.Stab.ResolveFieldIds | dragon/symbol.c:227-235 | The same for the fields of a record, in order |
| SymbolTable.Stab.ResolveArgIds | dragon/symbol.c:251-256 | The same for the formals of a signature, which become variables of the current scope |
| SymbolTable.Stab.AddDeclarations | dragon/symbol.c:312-325 | Declares the names of one declaration, or exits on a name the scope already has |
| SymbolTable.Stab.AddFunction | dragon/symbol.c:327-337 | Declares a function, or exits if the scope already has one of that name |
| SymbolTable.Stab.AddMagicFunction | dragon/symbol.c:339-359 | Declares a library routine without looking for an earlier one |
| SymbolTable.Stab.AddTypeName | dragon/symbol.c:361-370 | Declares the name of a pointer, record, array or function type, or exits if the scope already has it |
| SymbolTable.Stab.SameType | dragon/symbol.c:388-417 | The recursive comparison terminates and gives the specified answer, with the abort on void |
| Symbols.ResolvedExists | dragon/symbol.h:122-124 | Whatever a name resolves to was declared under that name and is an id of the arena |
| Symbols.ResolveTypeOnlyVars | dragon/symbol.c:213-310 | Resolving a type declares at most the formals of the signatures in it, as variables of the innermost scope, and changes no other resolution |
| Symbols.AddVarOnlyVars | dragon/symbol.c:179-199 | Declaring a variable changes the meaning of its own name only |
| TypeArena.ResolveKeepsWellFounded | dragon/symbol.c:213-310 | Every type id stored in an entry is below the entry's own id, kept by every resolution whose type names are declared |
| TypeArena.TypesEqDecides | dragon/symbol.c:388-417 | Comparison decides equality of types with their pointers unfolded, for every pair; it aborts exactly on equal types that end in void |
| Denotations.ResolveMeans | dragon/symbol.c:213-310 | The id that resolving a type yields describes the type: pointers by their targets, records by names and types of their fields in order, arrays by bounds and element, signatures by kind, names and types of their formals in order and result, names as they resolve |
| Denotations.EntryNamed | dragon/symbol.c:213-310 | Pointers, records, arrays and signatures get a new entry under the given name, which is no library routine |
| Denotations.MeansStill | dragon/symbol.c:179-310 | What an id describes stays the same while the arenas grow |
| Denotations.FunctionStandsFor | dragon/symbol.c:327-337 | After its declaration the name of a function stands for an entry that describes its signature, and no other function name changes |
| Denotations.TypeStandsFor | dragon/symbol.c:361-370 | The same for the name of a type |
| Denotations.VariablesStandFor | dragon/symbol.c:312-325 | Each name of a declaration becomes a local variable of the declared type |
| Denotations.ResultStandsFor | dragon/analysis.c:697-698 | The slot for the result is a local variable of the declared result type |
| Denotations.RecursionPossible | dragon/analysis.c:700-704 | In its own body a nested subprogram's name stands for its signature, unless the body's scope declares the name again |
| Denotations.ComparedBySyntax | dragon/symbol.c:388-417 | Built-in types, arrays and pointers to them compare equal exactly when they are written alike |
| Denotations.WrittenTwiceDiffers | dragon/symbol.c:388-417 | Records, signatures and pointers to them are compared by declaration: written twice, however alike, they differ, and each equals itself |
| Declarations.AcceptedExactly | dragon/symbol.c:312-325 | Rule 1.1: a declaration is accepted exactly when its names are new in the scope and distinct |
| Declarations.DeclarationsKeepWellFounded | dragon/symbol.c:312-370 | Declaring variables, functions and types keeps the type arena well founded |
| Declarations.AddMagicOk | dragon/symbol.c:339-359 | Declaring a library routine binds its name as a function, keeps every id good and the type arena well founded |
| Declarations.FormalsLeakExactly | dragon/symbol.c:251-256 | After declaring a function a variable name means the same as before if and only if it is not a formal of its signature |
| Declarations.NamesTile | dragon/symbol.c:179-199 | The names of one declaration get consecutive slots that tile the frame from the old offset to the new one, as an int counts |
| LocalFrames.GroupsTile | dragon/symbol.c:312-325 | Several declarations of locals, of any types without signatures, together tile the frame from the old offset to the new one, as an int counts, and their sizes add up to what the types say beforehand |
| LocalFrames.LocalsWithinExactly | dragon/symbol.c:179-199 | They lie between the old offset and the new one if and only if old offset and frame size add up to less than 2^31, and then no two of them overlap |
| LocalFrames.GroupsAcceptedExactly | dragon/symbol.c:312-325 | Rule 1.1 for several declarations: accepted exactly when all their names together are new in the scope and distinct |
| LocalFrames.ReversedShares | dragon/symbol.c:190-241 | Eleven integers, an array with bounds 12..1 and one more integer are accepted, and the last integer has offset 0 like the first |
| LocalFrames.LastElementShared | dragon/symbol.c:237-241 | An array gets one element too little: whatever its bounds, what is declared after it begins where its last element lies, as an int counts |
| FormalFrames.FormalsDescend | dragon/analysis.c:681-688 | From one word above as many words as there are declarations, the formals of one word lie downward word by word in the order of declaration |
| FormalFrames.LastFormalAboveExactly | dragon/analysis.c:681-688 | The last of them lies above the words at 0 and 8 if and only if every declaration has a single name |
| FormalFrames.FrameLaidOut | dragon/analysis.c:674-698 | Formals of any types lie downward from there, locals upward from 0, and the slot for the result, named like the subprogram, behind the locals |
| FormalFrames.GlobalsLaidOut | dragon/analysis.c:783-786 | Global variables of any types lie upward from 0 in the order of declaration |
| Bodies.CallDense | dragon/analysis.c:294-346 | Checking a call, of a library routine or of a declared subprogram, keeps display slots one to one and moves none |
| Bodies.CmdDense | dragon/analysis.c:543-655 | The same for every statement but for |
| Bodies.TouchDense | dragon/analysis.c:155-161 | The same for one mention of a variable |
| Captures.CmdCaptures | dragon/analysis.c:155-160 | After an accepted command the captured variables are those of before and exactly the variables of outer scopes whose names occur in it |
| Captures.SubCaptures | dragon/analysis.c:657-754 | After an accepted subprogram they are those of before and exactly the ones whose names occur in it, at any depth, where they are not local |
| Captures.UnitCapturesExactly | dragon/analysis.c:155-161 | At the end of a program a variable has a slot exactly if its name occurs outside its scope, and the slots are those below the counter, one for each |
| Typing.TermTyped | dragon/analysis.c:349-475 | The analysis finds the type that the rules give a term, and rejects exactly the terms that have none (rules 2.2 and 2.3) |
| Typing.OneType | dragon/analysis.c:349-475 | The rules give a term at most one type |
| Typing.CallTyped | dragon/analysis.c:294-346 | The same for calls of library routines and of declared subprograms |
| Typing.TestTyped | dragon/analysis.c:602-605 | A test is accepted exactly when it is boolean (rule 3.2) |
| Typing.SetTyped | dragon/analysis.c:551-558 | An assignment is accepted exactly when its sides have the same type, pointers unfolded and not ending in void, and its target may be assigned to |
| Typing.AcceptedExactlyTyped | dragon/analysis.c:543-655 | A body is accepted exactly when every statement in it obeys the rules |
| Typing.SubprogramAcceptedExactly | dragon/analysis.c:721-726 | Rule 5.2: after its declarations, a subprogram is accepted exactly when its body obeys the rules and, for a function, assigns to the function's name |
| Subprograms.ResolveInner | dragon/symbol.c:213-310 | Resolving a type with declared names yields a good id, keeps every entry of the table good and changes no scope but the innermost |
| Subprograms.ChainRestored | dragon/analysis.c:657-754 | Analysing a subprogram with all that is nested in it, whatever its bodies call, restores the chain of scopes and keeps every arena entry |
| Subprograms.LeaveRestores | dragon/symbol.c:124-135 | Leaving a scope restores the chain that was there when it was entered, whatever was declared in between |
| Subprograms.SlotsStayDense | dragon/analysis.c:155-161 | Every run of analysis gives captured variables and slots below the counter a one-to-one correspondence and never changes a slot |
| Subprograms.NestedFormalsLeak | dragon/analysis.c:700-704 | Through the analysis of nested subprograms a variable name keeps its meaning if and only if none of them has a formal of that name |
| Subprograms.ResultNamedExactly | dragon/analysis.c:697-698 | In a body the subprogram's own name denotes its result slot exactly when no directly nested subprogram has a formal of that name |
| HiddenResults.HiddenAccepted | dragon/analysis.c:536-538 | A function whose nested procedure has a formal of the function's name is accepted, although its body assigns to that formal at offset -1 and not to the result slot |
| Nonlocals.FunctionKeepsNonlocals | dragon/README.md:162 | Rule 5.4: whatever an accepted function body that calls library routines only does, for however long and whatever its terms are worth, every variable declared before the function was entered keeps its value, unless the body reads into it |
| Nonlocals.ReadingEscapes | dragon/analysis.c:249-286 | read and readln are accepted in a function for every variable of a built-in type, and put the next number of the input into it |
| Nonlocals.FunctionAcceptedExactly | dragon/analysis.c:531-535 | A body is accepted in a function exactly when it would be accepted in a procedure and all its targets are local |
| Nonlocals.CheckedReadable | dragon/analysis.c:149-150 | Rule 2.2: an accepted body, whatever it calls, names only declared variables |
| Nonlocals.OnlyTargetsChange | dragon/analysis.c:551-562 | A run changes no variable that none of its targets denotes and that it does not read into, not even when it is cut short |
| BodyStores.CellsFollowStores | dragon/analysis.c:543-655 | Running on one cell per declared variable is the store semantics of the visible names, output included, also when the fuel runs out |
| BodyStores.ValueIsQuotient | dragon/analysis.c:415-423 | The value of a safe expression with div and mod is the one that its code leaves behind |
| BodyStores.TruthLaws | dragon/analysis.c:384-387 | On truth values the results of and and or are those of the connectives, and nothing else has one |
| BodyStores.LabelsAgree | dragon/analysis.c:601-650 | The analysis of a body uses as many labels as the code of the statement has |
| Arguments.TypesCheckedExactly | dragon/README.md:160-161 | Rule 5.3: every accepted call has as many arguments as formals; every accepted call has arguments of the formals' types if and only if there are no formals |
| Arguments.WrongTypesAccepted | dragon/analysis.c:323-337 | Every declared subprogram can be called with every single argument of a wrong type |
| Arguments.ReportedExactly | dragon/analysis.c:326-333 | Accepted arguments are reported exactly when some type differs from the formal's, pointers unfolded |
| UnitPrograms.LegalExactlyChecked | dragon/analysis.c:756-817 | For programs of integer globals without types and subprograms, the rules of the language and the checks of the analysis accept the same programs |
| UnitPrograms.BodyAgrees | dragon/analysis.c:543-655 | The same for statements, none of which is given a display slot |
| FunctionContexts.Fcx.AnalyzeSubprog | dragon/analysis.c:657-754 | Accepts exactly as specified, and gives back the caller's function name, kind, return flag, label counter, register set and chain of scopes, for every nesting and whatever registers the bodies have used up |
| FunctionContexts.Fcx.InNewContext | dragon/analysis.c:664-671 | A subprogram is analysed with its own name and kind, an empty register pool, labels from 0 and no return noted: its body leaves the label counter at the number of labels it uses |
| FunctionContexts.Fcx.AnalyzeSubs | dragon/analysis.c:700-704 | The same for a list of nested subprograms, none of which touches the enclosing function's context |
| FunctionContexts.Fcx.AnalyzeBody | dragon/analysis.c:721-726 | Accepted exactly when the body passes its checks and, for a function, assigns to the function's name; nothing nested in it counts (rule 5.2) |
| FunctionContexts.Fcx.AnalyzeCmd | dragon/analysis.c:543-655 | Accepted exactly as specified; the return flag records exactly the assignments to the subprogram's name, the label counter grows by twice the ifs and whiles, and from any number of live temporaries as many are live afterwards as its calls leave |
| FunctionContexts.Fcx.AnalyzeProc | dragon/analysis.c:621-624 | A call as a statement, from k live temporaries: a declared subprogram leaves one more per argument, and a library routine frees the first register, whoever owns it |
| FunctionContexts.Fcx.FirstFreedLive | dragon/analysis.c:303-306 | Without its first register the pool of k live temporaries is as before if and only if k is 0, and no prefix of the table for k above 1 |
| FunctionContexts.BalancedAfter | dragon/analysis.c:543-655 | A command that calls library routines only returns the empty pool to where it started |
| FunctionContexts.Fcx.AnalyzeSet | dragon/analysis.c:551-562 | The same for assignment, with the comparison of types |
| FunctionContexts.Fcx.AnalyzeTerm | dragon/analysis.c:349-475 | The type of an expression, one owned register, and the display slots of the outer variables in it |
| FunctionContexts.Fcx.AnalyzeCall | dragon/analysis.c:294-346 | A call is accepted exactly when its name is declared, the number of arguments agrees and the arguments pass; a declared subprogram's arguments keep their registers, a library routine's give them back |
| FunctionContexts.Fcx.AnalyzeMagic | dragon/analysis.c:212-292 | write and writeln take arguments of the six built-in types, read and readln variables of them; every register is given back |
| FunctionContexts.Fcx.CheckAssignability | dragon/analysis.c:506-541 | Main and procedures may assign anything, functions only their own variables; an assignment to the current name is noted |
| FunctionContexts.Fcx.TypeOfPath | dragon/analysis.c:137-166 | An outer variable gets the next display slot on its first mention and keeps it |
| FunctionContexts.Fcx.Open | dragon/analysis.c:674-698 | A new scope with types, formals, locals and the result slot, or the exit on a repeated name |
| Units.NewContext | dragon/analysis.c:756-777 | The context that analyze starts from, every part of it fresh: the global scope is open and empty, the pool is free and no slot is handed out |
| Units.DoImports | dragon/analysis.c:124-134 | The libraries are registered one after the other, up to the exit on an unknown name |
| Units.AnalyzeUnit | dragon/analysis.c:756-817 | A whole program with libraries, types, globals, nested subprograms and calls is accepted exactly as specified |
| Units.UnitSlotsDense | dragon/analysis.c:155-161 | However a program nests its subprograms, at the end captured variables and slots correspond one to one |

## Left out

- Calls of functions and procedures, their prologues and epilogues as executed code, argument passing and display access at run time: the emitted pushes and pops do not match once there are arguments, and the repository's README calls nonlocal access broken. The instructions of subprogram bodies are therefore not modelled; their checks, registers, labels and display slots are.
- MainProgram.IntendedProgramCorrect: programs whose globals are integers and that declare no types and no subprograms, because subprograms are not modelled as executed code; `Units.AnalyzeUnit` covers what is checked in all of them. The frame must be one whose size an int can hold, which is exactly when its variables have words of their own (`MainProgram.LegalFrame`).
- MainProgram.IntendedProgramPrints: the same programs.
- CodeGen.Compile: the same programs.
- CodeGen.Acx.Analyze: the same programs.
- StmtCorrect.StmtSteps: no `for` statements and no calls of declared subprograms.
- CodeGen.Acx.AnalyzeStmt: the same statements.
- ExprCorrect.ExprRuns: literals, variables and `+ - *`; `div` and `mod` are in `Quotients`.
- CodeGen.Acx.AnalyzeExpr: the same expressions; `FunctionContexts.Fcx.AnalyzeTerm` covers the checks and the registers of all binary operators and calls.
- CodeGen.Acx.AnalyzeBin: `+ - *` only; `CodeGen.Acx.AnalyzeQuotient` adds div and mod, which the meaning of whole programs does not include.
- CodeGen.Acx.AnalyzeMagic: integer arguments of write and writeln, the only ones in scope there.
- CodeGen.Acx.AnalyzeCall: the same calls; `FunctionContexts.Fcx.AnalyzeCall` covers the others.
- StmtCorrect.WriteStmtRuns: the same arguments.
- Globals.DeclareGlobals: integer globals; `Units.AnalyzeUnit` covers the others.
- FunctionContexts.Fcx.AnalyzeTerm: does not model unary operators, dereferencing, indexing or paths of more than one component.
- FunctionContexts.Fcx.AnalyzeCmd: does not model `for`, and promises nothing about the instruction list, to which a call also appends pushes and pops of the registers in use.
- Nonlocals.FunctionKeepsNonlocals: bodies without calls of declared subprograms, which are not modelled as executed code; a procedure called in a function may change variables of outer scopes. Input is a sequence of numbers without line ends.
- BodyStores.CellsFollowStores: statements whose conditions are comparisons, the only ones that the store semantics has.
- FunctionContexts.Fcx.AnalyzeProc: counts live temporaries for arguments without calls; calls inside arguments are covered by the checks and the display slots.
- Subprograms.ChainRestored: requires that every type name is declared before use, since the source uses the failure value as an index otherwise.
- SymbolTable.Stab.AddTypeName: requires a pointer, record, array or function type. For a built-in type or a type name, as in `type t = integer`, the source has freed the name by the time it becomes the key in the scope's table, so that every later comparison in that bucket reads freed storage.
- The loops over a scope's hash table that save, set and restore display entries: the traversal macro visits the first bucket twice and skips the last one.
- `for` statements: an unmatched push, an induction variable that is never updated and a register that is not returned.
- Array indexing, dereferencing, paths of more than one component, unary operators and address-of, whose code is incomplete.
- Comparisons below the root of a condition, `and` and `or`: the byte register name is right for four registers only.
- Variables of main of other types than integer as executed code: their sizes and eight-byte stores do not agree.
- `read` and `readln` as executed code, and printing of anything but integers.
- DivMod.BlockRuns: requires operands outside rax and rdx, as the other results about the block do; `DivMod.AlwaysRightExactlyWhenClear` says what happens elsewhere.
- DivMod.BlockFaults: the same.
- DivMod.DivRightExactlyWhenExtends: the same.
- DivMod.ModRightExactlyWhen: the same.
- StmtCorrect.CompareRuns: requires words in both registers, so the results about programs start from a memory of words, as every real memory is.
- Machine addresses are unbounded integers: wrap-around of addresses, exhaustion of the stack and the stack alignment that library calls ask for are not part of the model. A 64-bit immediate move loads any literal.
- The overflow counter, the label counter and display slots are unbounded integers, not 32-bit ones; frame offsets wrap around at 32 bits as an int does in practice, and the bounds of an array are integers whose difference an int can hold.
- Lists.List.Pop: requires two elements, because the source follows the last node's previous pointer without a test.
- `ptrvec_pop`, which reads one past the end, `ptrvec_new` and `ptrvec_last`.
- Tables.HashTable.constructor: the array of buckets is a fixed sequence, because it is filled at creation and never reassigned; two keys compare equal when they are equal strings.
- SymbolTable.Stab.ResolveId: the three functions for variables, functions and type names differ only in the table they read and are one method with the namespace as a parameter; the same holds for the three has-local functions.
- SymbolTable.Stab.LeaveScope: requires an enclosing scope, as the list can only be popped while it has two elements.
- SymbolTable.Stab.AddDeclarations: requires that a type name standing alone is declared; the source uses the failure value as an index otherwise. Undeclared names inside a type are kept as the failure value.
- SymbolTable.Stab.EnterScope: does not model the arena of all scopes ever entered, source positions, or alignment fields.
- The fields of a variable that say whether and where it is captured are a map beside the arena, so that arena entries stay unchanged once made.
- `hash_free`, `list_free` and all other release of memory.
- The lexer, the parser, the syntax tree's constructors and printers, the driver and the texts of diagnostics.
