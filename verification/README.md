# SmartFirmware C compiler: a verified model

The repository holds a C-to-Forth compiler for Open Firmware (`bin/cc`), the Forth
engine its output runs on (`bin/of`), and supporting libraries. This project models
the compiler's hard parts in Dafny and proves what they are for. Words and engine
follow IEEE Std 1275-1994; the language and its preprocessor follow
ISO/IEC 9899:1990.

Where the code departs from C, the model departs with it. The condition under which
the code is still right is then stated for one operation and proved in both
directions (`ConstFold.FoldBinaryExact`, modules `Departures` and `EngineLimits`,
`Stages.EngineExactly`, `Definitions.LoadsExactly`, `Bitfields.ReadsBackExactly`,
`Declarators.ReadsDeclarator`, `CondInclude.CacheIsSoundExactly`,
`Inclusion.SharedCacheExactly`).

Check it with `dafny verify dfyconfig.toml` (Dafny 4.11).

## Main results

1. **The compiler preserves meaning.** A generated file is tokenized (`of -t`) and its
   FCodes are loaded. For every supported and loadable program the threaded machine then
   halts exactly when the C call returns, in the same memory, with the result on top of an
   untouched stack (`Compiler.RunsTogether`). Underneath: the generator's walk (class
   `Generator.Generator`) prints exactly the specified words; structured execution of
   them simulates C evaluation (`Simulation.SimR`, `SimS`); the engine looks every printed
   word up, numbers too, keeps a control stack in each of the two stages, counts bytes and
   patches 16-bit offsets, and comes out with the text's own code exactly under a stated
   condition, as it gets through at all (`Definitions.LoadsExactly`, `AcceptsExactly`);
   that code runs as the text says (`Interpreter.Threads`). Frames form a chain, are freed
   once, and receive their arguments (`Frames`); variables outside frames belong to one
   activation at a time (`Compiler.CallNeverClashes`, `NeverTwice`).
2. **Constant folding**, with the library's wrong products and remainders, the
   comparisons of addresses and the misplaced arms of `?:`, and exactly when it is right.
3. **The expression parser** returns a tree if and only if the layered grammar of the
   standard derives it (`Grammar.ParsesGrammar`), undoes the printer, and agrees with the
   layered `#if` evaluator, whose operators compute what the compiled ones do (`IfValues`).
4. **Declarators** read inside out by plugging holes in place are the recursive
   definition of the standard, and types can be written and read back.
5. **Macro expansion** ends for every table, restores every flag and the stack, for
   object-like macros is the standard's nested-name rule, and for calls is the standard's
   substitution, rescanned (`Substitution.ExpandsCall`, `NestedCallsExpand`).
6. **Conditional inclusion** picks the first true group of each section. The cache of
   include guards, one for all depths of inclusion, is right exactly for files whose guard
   does not follow an inclusion of their own.
7. **The buffer cleaner**, rewriting the buffer in place, keeps literals, turns comments
   into spaces, joins spliced lines and keeps the line count (`CleanPieces.CleansPieces`).
8. **Struct layout** by a running counter is round-up layout, and the printed `field`
   words reproduce it. **Bitfields** read back exactly when they fit their unit.
9. **Switch checking** finds every overlap; **the hash table** answers as a finite map
   over any run.

## Files

| file | contents |
|---|---|
| Options, Cells, Memory | optional values, 32-bit cells, wrap-around, bitwise operators, byte memory, heap |
| CTree, CSemantics | the typed C tree that `bin/cc/fcode.cc` walks and its meaning, in the evaluation order the generator picks |
| ConstFold | `is_int_expr` and `eval_const_expr` (`bin/cc/cceval.cc`) |
| Forth | the engine's words and structured execution (`bin/of/funcs.c`) |
| Emit, Generator | the words emitted for each node, as a function and as the walk that appends them |
| Supported | the fragment of C for which the simulation is claimed |
| WordLemmas, Simulation | emitted words compute what C says |
| Threaded, Patching | tokenizing and loading, instruction by instruction and byte by byte; what either stage accepts and makes |
| Loading, Signs, Stages | the two stages together; offsets that change sign between them |
| Reading, Printed | names, numbers and the dictionary; what printed words are read as |
| Interpreter | the small-step machine on threaded code |
| Acceptance, Definitions | the text of generated functions; whole programs through the engine |
| Reentry, Compiler | static variables as automatic ones; end-to-end theorems |
| EngineLimits | generated text that is rejected, or does something else |
| Frames, Departures | frame discipline; departures from C with exact conditions |
| Bitfields, StructLayout | bitfield access; struct layout and `field` words |
| ExprParser, Grammar | precedence climbing; the grammar of section 6.3 it accepts |
| IfExpr, IfValues | the `#if` evaluator; what its operators compute |
| Declarators, TypeBuilder | declarators and types, as functions and as linked nodes plugged in place |
| Macros, Expander | macro expansion, as functions and as the stack machine with flags |
| Substitution | calls of function-like macros against section 6.8.3 |
| CondInclude, Inclusion | the sections of one file and its guard; files that include files, with and without the cache |
| Directives | the same as directives on a cursor and a cache kept over all files |
| CleanBuffer, CleanPieces | the in-place buffer cleaner; what it does to literals, comments, splices and trigraphs |
| SwitchCases, HashTables | case checking; the chained hash table |

Fuel in the C semantics bounds loop turns and call depth; the theorems quantify over
it, and `Compiler.RunsTogether` removes it. The allocator behind `alloc-mem`, the value
of a condition, the text a paste makes, and operations undefined on the host are
parameters; so are the names a program uses and the words a machine adds to the engine.
What an included file leaves is a parameter of module `CondInclude` and not of `Inclusion`.

Three classes are split into more methods than the source has functions, so that each
can be checked on its own: the case blocks of the generator's `mktree`, the loops of
`expand_macro`, and the branches of `cleanupbuf`.

## Model

The main results come first; the rows after them are the parts they are built of.

| member | source | states |
|---|---|---|
| Compiler.RunsTogether | bin/cc/fcode.cc:806-1062 | For a call of a supported and loadable program whose C meaning is defined, the machine halts if and only if the C call returns, and every halt is in the C end state with the stack below untouched. To call a function under way that has no frame counts as undefined in that meaning, and variables outside frames are where `statics` puts them (`Reentry.Placed` says when they are apart). |
| Simulation.SimR | bin/cc/fcode.cc:1106-2174 | For every supported expression, machine state and fuel: the emitted code ends exactly as C evaluation does, adds one cell with the value (its truth value, where only that is asked), leaves the cells below untouched, and ends in the C memory, heap and `$frame`. |
| Simulation.SimS | bin/cc/fcode.cc:2342-2480 | Every supported statement: same memory and same way out as C, the data stack back at its starting depth on every branch and turn. |
| Definitions.LoadsExactly | bin/of/token.c:130-221 | For any program, supported or not: the engine, tokenizing the text and loading the FCodes, makes of every function exactly the code and the frame its text stands for if and only if every printed word is read as what it was printed for, no branch in memory is longer than 16 bits allow, and no `then` follows a number that ends like an `else`. |
| Definitions.AcceptsExactly | bin/cc/fcode.cc:2408-2433 | For any program: a function gets through both stages if and only if each of its `for` statements has a condition, each of its words can be read, and the text as it is read fits in memory (`Threaded.Fits`) with every forward offset positive in the FCodes (`Signs.Signed`); provided no name is spelled like a control word. |
| Printed.OwnExactly | bin/of/exec.c:1447-1515 | For every printed definition and any dictionary: the outcome of reading, tokenizing and loading is the text's own code if and only if every word is read as printed and the text is clean. So nothing misread or mispatched comes out right by accident. |
| Reading.SpelledTrue | bin/of/funcs.c:1886-2274 | Every word the generator prints for one of the engine's is in the engine's own tables, there stands for what the generator means by it, and has the FCode that is compiled. |
| Stages.EngineExactly | bin/of/control.c:685-749 | For every structured text read as printed: tokenizing and loading succeed if and only if it has no unconditional loop, fits in memory and keeps its offsets positive; the code is the text's own if and only if the text is clean in memory. |
| Interpreter.Threads | bin/of/control.c:685-760 | On a text's own code the small-step machine with return addresses and patched branches ends where structured execution does, loops and calls included. |
| Compiler.CallNeverClashes | bin/cc/README-Fcode:150-154 | In a supported program the C call is the same whether or not calling a function under way that has no frame is undefined: it never happens, for any fuel. |
| Compiler.OnlySelfCalls | bin/of/forth.c:982-1015 | At every point of every run of any program the engine has compiled, whatever it was read as, a function is active more than once only if its own code calls it. |
| Compiler.NeverTwice | bin/cc/README-Fcode:150-154 | So, in a supported and loadable program, a function without the pragma occurs at most once among the running function and the return addresses, at every point of every run. |
| Generator.Generator.MkTree | bin/cc/fcode.cc:1515-2174 | The walk appends exactly the words of `EmitR` to the output and touches nothing before them. |
| Generator.Generator.MkFunction | bin/cc/fcode.cc:806-1062 | A whole definition: prologue, parameters last to first, body, epilogue where `check_return` asks for one, `;`. |
| Frames.CallKeepsHeap | bin/cc/fcode.cc:920-957 | A call, whatever it does and however it returns, leaves the set of allocated blocks as it was. |
| Frames.ArgumentsLand | bin/cc/fcode.cc:920-944 | Under an allocator that hands out blocks apart from the live ones, every call gets its frame and parameter i holds argument i, converted to its type. |
| ConstFold.FoldBinaryExact | bin/cc/cceval.cc:262-552 | For every operator and all operands on which C defines it, the folded value is the C value exactly under `FoldsRight`, a condition on the two operands; `>`, `<=`, `>=` never, `==` and `!=` only for different operands. |
| ExprParser.ParsesExactly | bin/cc/parser.cc:2464-2621 | From every token string and stop level, the parser returns a tree if and only if it is a precedence-shaped tree whose tokens start the string and no operator tighter than the stop level follows. |
| Grammar.ParsesGrammar | bin/cc/parser.cc:2464-2621 | From every token string, the parser returns a tree if and only if the nonterminal expression of section 6.3 of ISO/IEC 9899:1990, written out one predicate a nonterminal with its own operators, derives the tokens taken as that tree, and no operator follows. The left side of an assignment is a conditional expression, as in the code. |
| Grammar.StandardExactly | bin/cc/parser.cc:2464-2621 | A tree returned is the standard's if and only if no assignment in it has an operator at the top of its left operand. |
| ExprParser.RoundTrip | bin/cc/parser.cc:2464-2621 | For every tree over all binary operators, assignments, comma, `?:` and prefix operators: printing with parentheses where needed and parsing gives the tree back. |
| IfExpr.ConditionalAgrees | bin/cc/cppif.cc:525-550 | On every string of the shared operators, the one-pass layered evaluator gives the value and signedness of the tree the precedence-climbing parser builds, stops at the same token; it fails exactly when there is no such tree or it holds a prefix operator `#if` lacks. |
| IfValues.SignedIsC | bin/cc/cppif.cc:180-482 | On signed operands every operator but the divisions and connectives gives the value the compiler gives the same operator, wherever C defines it. |
| IfValues.UnsignedIsModular | bin/cc/cppif.cc:180-275 | With an unsigned operand, `*`, `+` and `-` are those operations on the unsigned values modulo 2^32, and the result is unsigned. |
| Declarators.ReadsDeclarator | bin/cc/parser.cc:5718-6258 | Every printed declarator is read to its end and its type is the one section 6.5.4 of ISO/IEC 9899:1990 defines, unless, and only unless, the base is void and the array next to it stands in parentheses: that is refused. |
| Declarators.WriteThenRead | bin/cc/parser.cc:5718-6258 | Every type, arrays of void included, is read back from the declarator written for it. |
| TypeBuilder.DoPointTo | bin/cc/parser.cc:9460-9521 | The walk to the hole overwrites one link of one node; the nodes then are the filled type, and it is refused exactly for void in an array's hole. |
| Macros.ExpandsToReference | bin/cc/cppmac.cc:510-545 | For object-like macros without `#` and `##`, expansion equals the nested-name rule of section 6.8.3.4 of ISO/IEC 9899:1990, self-references surviving as EXPANDED_IDENT. |
| Expander.Cpp.ExpandAllMacros | bin/cc/cppmac.cc:510-545 | Ends for every table and buffer; every flag, the stack top and the current token come back as found; unless an argument list ran off the end, the result is `ExpandAll` and no token below was used. |
| Substitution.ExpandsCall | bin/cc/cppmac.cc:104-220 | Whatever the table: a call whose arguments are texts with balanced parentheses becomes its body with every part filled (each parameter by its argument fully expanded, `#` and `##` on the arguments as written, the left operand first), rescanned with the macro off and painted; with a wrong number of arguments only the name is left of it. |
| Substitution.NestedCallsExpand | bin/cc/cppmac.cc:394-404 | Calls of any function-like macros with bodies free of `#`, `##` and macro names, in each other's arguments to any depth, with any number of parameters: all expand, and the result is the bodies with the values of the arguments in them. |
| Substitution.ArgumentsFirst | bin/cc/cppmac.cc:394-404 | For a macro without `#` and `##`, a call on arguments that expand to texts without macro names equals the call on those texts. |
| CondInclude.RunsGroups | bin/cc/cppif.cc:656-955 | For every well-nested line sequence: the tokens, macros and evaluated conditions are those of section 6.8.1 of ISO/IEC 9899:1990, no later condition is evaluated, no error is reported and `ifcount` ends unchanged. |
| CondInclude.CacheIsSoundExactly | bin/cc/cppdir.cc:269 | For every well-nested file with a recorded expression: skipping is right in all worlds and for all macros if and only if the file includes none of its own at the top level. |
| Inclusion.SharedCacheExactly | bin/cc/cppdir.cc:165-336 | For every well-nested file, among any files that record only clean guards, in any world: reading with one cache for all depths agrees with reading that opens every file, if and only if the guard the file's text gives is clean; that is, does not follow an inclusion of its own. |
| Inclusion.SharedCache | bin/cc/cppdir.cc:165-336 | Over such files, reading with the cache gives the tokens, macros and evaluated conditions of section 6.8.1 of ISO/IEC 9899:1990, where what an included file holds is found by opening every file; no error is reported. |
| Directives.Includer.Open | bin/cc/cppdir.cc:189-210 | Opening a file, or skipping it by its recorded expression: the tokens and macros are those of a reading that opens every file, whenever that ends, and the cache is sound for the next one. |
| CleanBuffer.CleanupBuf | bin/cc/cppscan.cc:59-318 | Cleaning in place leaves what cleaning into a new buffer would, ended by a NUL, every newline there or owed. |
| CleanPieces.CleansPieces | bin/cc/cppscan.cc:59-318 | For every text made of literals, comments of both kinds, spliced lines, trigraphs and other characters: literals come out as they stand whatever looks like a comment in them, each comment as one space, splices as nothing, and the newlines of comments and splices before the next newline. |
| StructLayout.Size | bin/cc/cctype.cc:377-512 | The loop over mutable members gives the reference's size and offsets and records the gaps, and gives them again when it is run again. |
| Bitfields.ReadsBackExactly | bin/cc/fcode.cc:640-652 | All values read back if and only if the field does not reach past its unit. |
| SwitchCases.CheckCases | bin/cc/ccnode2.cc:270-406 | The cases are only permuted, and an error is reported if and only if some two cases anywhere overlap or the list is rejected. |
| HashTables.Run | bin/domail/hashtable.c:88-204 | Any run of add, lookup and clear with distinct keys answers as a finite map does; there are at most twice as many entries as buckets, and one more. |
| ConstFold.LibMulIsProduct | lib/integer/integer.cc:519-577 | The library's signed product is the wrapped product for a right operand that is not negative, and the negated product otherwise. |
| ConstFold.LibRemIsFloored | lib/integer/integer.cc:653-674 | The library's remainder is the engine's floored remainder exactly when the signs agree, it is zero, or it is half the divisor. |
| ConstFold.FoldCondExact | bin/cc/cceval.cc:554-573 | A constant `?:` gives its condition or its first arm; that is right exactly when the arm C takes has that value. |
| ConstFold.FoldBinaryOk | bin/cc/cceval.cc:262-552 | Under `FoldOk` a binary node over constant subtrees folds to the C value, pointer scaling included. |
| Simulation.FoldIsValue | bin/cc/cceval.cc:102-573 | A constant subtree that satisfies `FoldOk` folds to the value the C evaluation gives, and that evaluation changes nothing. |
| WordLemmas.EngineFloors | bin/of/funcs.c:296-362 | The engine's `/` and `mod`, computed on magnitudes and corrected for signs, are the floored quotient and remainder. |
| WordLemmas.EngineComputes | bin/of/funcs.c:272-500 | Each arithmetic word computes what the C operator means on signed cells, wherever C defines it. |
| WordLemmas.RunGet | bin/cc/fcode.cc:660-756 | The load word of a type replaces the address on the stack by the object there. |
| WordLemmas.RunSet | bin/cc/fcode.cc:537-658 | The store word of a type takes value and address off the stack and stores the value at the address, its low byte for an unsigned char. |
| WordLemmas.RunArithTail | bin/cc/fcode.cc:1694-1819 | The words after two integer operands replace them by the C result, comparisons cut down to 0 or 1. |
| WordLemmas.RunBinaryTail | bin/cc/fcode.cc:1694-1819 | The same for all operand types: pointers move by, and differ in, whole elements. |
| WordLemmas.RunAssignTail | bin/cc/fcode.cc:1854-1968 | The words of `op=` compute the operator, `%=` excepted. |
| WordLemmas.RunKeepAndSet | bin/cc/fcode.cc:1844-1852 | An assignment stores the value and leaves one copy of it on the stack. |
| WordLemmas.RunUnaryTail | bin/cc/fcode.cc:1579-1601 | `-`, `~` and `!` on the top of the stack. |
| WordLemmas.RunBump | bin/cc/fcode.cc:1529-1554 | `++` and `--`: memory gets the old value plus or minus the step; the stack the new value or the old one. |
| Simulation.SimL | bin/cc/fcode.cc:1459-1513 | The same for lvalues: one cell with the address. |
| Simulation.SimConst | bin/cc/fcode.cc:1105-1117 | A constant subtree becomes its folded value. |
| Simulation.SimUnary | bin/cc/fcode.cc:1515-1604 | Case of the unary operators. |
| Simulation.SimBinary | bin/cc/fcode.cc:1680-1819 | Case of the binary operators, left operand first. |
| Simulation.SimFetch | bin/cc/fcode.cc:1208-1335 | Case of variables, elements and `*`: the object is loaded, an array stands for its address. |
| Simulation.SimAddrOf | bin/cc/fcode.cc:1556-1563 | Case of `&`. |
| Simulation.SimIncDec | bin/cc/fcode.cc:1529-1554 | Case of `++` and `--`. |
| Simulation.SimLogic | bin/cc/fcode.cc:1821-1833 | Case of the logical operators: the right operand runs exactly when C evaluates it, and the cell left is zero exactly when the C value is. |
| Simulation.SimComma | bin/cc/fcode.cc:1835-1842 | Case of the comma operator. |
| Simulation.SimAssign | bin/cc/fcode.cc:1844-1852 | Case of `=`, right operand first. |
| Simulation.SimOpAssign | bin/cc/fcode.cc:1854-1968 | Case of `op=`: the address is computed once. |
| Simulation.SimCond | bin/cc/fcode.cc:2007-2020 | Case of `?:`: only the chosen arm runs. |
| Simulation.SimCast | bin/cc/fcode.cc:2043-2174 | Case of casts between the supported widths and to void. |
| Simulation.SimIndex | bin/cc/fcode.cc:1262-1315 | The address of an array element, constant index or not. |
| Simulation.SimArgs | bin/cc/fcode.cc:1344-1376 | Arguments are left on the stack in order, last one on top. |
| Simulation.SimCall | bin/cc/fcode.cc:1344-1376 | Case of calls. |
| Simulation.RunPushFrame | bin/cc/fcode.cc:920-923 | The prologue allocates a frame, links it in front of the chain of active frames, and moves `$frame` to it. |
| Simulation.RunSaveParams | bin/cc/fcode.cc:925-944 | Popping parameters last to first moves argument i into slot i and empties the stack of arguments. |
| Simulation.RunPopFrame | bin/cc/fcode.cc:951-955 | The epilogue unlinks and frees the frame; the chain is the caller's again. |
| Simulation.SimEnter | bin/cc/fcode.cc:920-957 | A whole call, prologue to epilogue or `return`: `$frame` comes back as found, one cell for the result if there is one; static slots without the pragma, which `Compiler.CallNeverClashes` shows to be held by one activation at a time. |
| Simulation.SimInits | bin/cc/fcode.cc:402-430 | Initializers of a block's variables are stored in declaration order. |
| Simulation.SimIf | bin/cc/fcode.cc:2361-2384 | Case of `if`. |
| Simulation.SimWhile | bin/cc/fcode.cc:2386-2395 | Case of `while`, over any number of turns. |
| Simulation.SimDoWhile | bin/cc/fcode.cc:2397-2406 | Case of `do`. |
| Simulation.SimForLoop | bin/cc/fcode.cc:2408-2433 | Case of `for` with a condition. |
| Simulation.SimReturn | bin/cc/fcode.cc:2463-2480 | Case of `return` from any depth: value, popped frame, `exit`. |
| Simulation.RunCastTail | bin/cc/fcode.cc:2043-2156 | The words of a conversion leave the converted value, or nothing for void. |
| Compiler.CallSimulated | bin/cc/fcode.cc:1344-1376 | Whatever the C call does with some fuel, the threaded machine does from the same state: it delivers the same result, or, when the fuel ran out, takes at least that many steps. |
| Compiler.ReturnsSame | bin/cc/fcode.cc:806-1062 | When the C call returns, the machine halts having delivered its value and memory. |
| Compiler.HaltsOnce | bin/of/control.c:77-80 | A machine that halts after n steps takes no further step. |
| Printed.AcceptedExactly | bin/of/exec.c:1447-1515 | The acceptance condition for any printed definition, on the text as it is read. |
| Stages.OwnCodeTells | bin/of/exec.c:324-384 | Two texts of one code have the same instructions in the same places, except that a forward branch may have come out as one back. |
| Definitions.Compiles | bin/cc/fcode.cc:806-1062 | Every supported and loadable program goes through and gives its own threaded code for each function. |
| Definitions.CallsBack | bin/of/forth.c:982-1015 | Whatever a text is read as, its calls lead to functions defined no later than the caller. |
| Definitions.NoSelfCall | bin/cc/README-Fcode:150-154 | The code of a supported function without the pragma does not call the function itself. |
| Printed.CallsKnown | bin/of/exec.c:1447-1515 | Compiled code calls only functions that were in the dictionary when its text was read, itself included. |
| Printed.TidyReads | bin/of/table.c:1464-1506 | With names all different, whatever the case of their letters, and none a word the generator relies on, every such word and every name is read as printed. |
| Reading.NumberBack | lib/integer/itostr.cc:41-120 | Every 32-bit number, printed in hexadecimal with its sign and read back, is itself. |
| Reading.NumberReadsTrue | bin/of/exec.c:1447-1477 | A printed number is read as that number if and only if no name of the program is spelled like it, whatever the case, and no other word of the engine. |
| Reading.NameReadsTrue | bin/of/table.c:1565-1600 | A name is read as what it names if and only if no newer name is spelled the same. |
| Loading.SoundLoads | bin/of/exec.c:324-384 | FCodes with every offset of the right sign are loaded as if their branches were compiled for the first time: of an offset only the sign is used. |
| Loading.UnsoundRejected | bin/of/exec.c:324-384 | A definition with a forward offset that has come out negative is never loaded. |
| Signs.Signs | bin/of/exec.c:172-184 | At any point of a definition: which texts the tokenizer stores with all forward offsets positive in 16 bits, those patched by a `then` that closes the structure around it included. |
| Patching.Compiles | bin/of/exec.c:386-427 | In either stage, at any point of a definition and under any pending structure, text without unconditional loops is accepted if and only if it fits; bytes counted, code before it untouched and control stack as found, and its own code exactly if it is clean, unless a `then` in it closes the structure around it, whose branch then ends too early. |
| Patching.Depth | bin/of/forth.c:862-887 | Each control word of the tokenizer changes the depth of the control stack by a fixed number, whichever entries it takes. |
| Patching.TextBalance | bin/of/forth.c:862-887 | A text takes one entry too many for each unconditional loop in it, so at the outermost level the tokenizer always rejects one. |
| Threaded.ElseTestFinds | bin/of/exec.c:399-403 | On the bytes compiled, the test of `b(>resolve)` for the branch of an `else` holds exactly after such a branch, as loading leaves it, and after a number whose low 24 bits are 0x130000. |
| Threaded.SizeIsBytes | bin/of/forth.c:982-1015 | The sizes that bound texts and offsets are the numbers of bytes compiled, in both stages. |
| EngineLimits.SelfCall | bin/of/forth.c:982-1015 | `int f(int n) { if (n) f(n - 1); return n; }` gets through with the pragma and without it, and its code calls itself. |
| EngineLimits.SelfCallShares | bin/cc/README-Fcode:150-154 | A call of that function by itself has its parameter in the same place as the caller's exactly without the pragma. |
| EngineLimits.NumberIsName | bin/of/exec.c:1447-1451 | `return n;` compiles the word that the digits of n name, if there is one. |
| EngineLimits.FifteenIsF | bin/of/exec.c:1447-1451 | With `int f(int x) { return x; }` before it, `int g(void) { return 15; }`, printed `F exit`, calls f. |
| EngineLimits.TwoHundredFive | bin/of/device.c:1881-1882 | A text with the number 205, printed `CD`, is rejected, since `cd` is a word of the engine without an FCode; unless the program defines the name. |
| EngineLimits.CallIsNumber | bin/of/exec.c:1449-1477 | A call of a function `add` that is not defined yet is read as the number 0xADD. |
| EngineLimits.LongArm | bin/of/exec.c:172-184 | An arm whose FCodes take from 32765 to 65532 bytes is tokenized and rejected when it is loaded. |
| Reentry.EvalSame | bin/cc/README-Fcode:150-154 | The same for every expression a supported function evaluates, with any calls under way that come no earlier in the text. |
| Reentry.ExecSame | bin/cc/README-Fcode:150-154 | The same for statements. |
| Reentry.SlotsHeld | bin/cc/fcode.cc:509-521 | Static slots laid out apart serve as separate variables: storing one changes no other slot of any function. |
| Acceptance.ConditionedS | bin/cc/fcode.cc:2408-2433 | The Forth of a statement has an unconditional loop exactly where the C has a `for` without a condition. |
| Acceptance.VisibleFunc | bin/cc/README-Fcode:150-154 | A supported function calls only earlier ones, and itself under the pragma. |
| EngineLimits.ElseLookalike | bin/of/exec.c:399-418 | `c ? 1 : 0x130000` outside any other structure is rejected, whatever the condition. |
| EngineLimits.ElseLookalikeWithin | bin/of/exec.c:399-418 | Within an `if` it is accepted when its parts are, and the code is not the statement's. |
| Emit.NeverUnknown | bin/cc/ccnode2.cc:640-745 | `check_return` never gives the value zero, the unknown node. |
| Emit.EpilogueOnlyIfVoid | bin/cc/fcode.cc:951-955 | So the epilogue is printed for void functions only, though the code asks for it also when `check_return` is zero. |
| Frames.EvalKeepsHeap | bin/cc/fcode.cc:920-957 | Evaluating any expression leaves the set of allocated blocks as it was: every frame is freed once and nothing else is. |
| Frames.ExecKeepsHeap | bin/cc/fcode.cc:2463-2480 | The same for statements: falling out restores the blocks, returning has freed the running call's frame. |
| Frames.LeaveUndoesEnter | bin/cc/fcode.cc:951-955 | The block an epilogue frees is the one its prologue allocated. |
| Frames.SlotsApart | bin/cc/fcode.cc:454-488 | The slots of a frame do not overlap each other or the link. |
| Frames.FreshMisses | bin/cc/fcode.cc:920-923 | A fresh frame's link and slots miss the links of all older frames. |
| Generator.ConstExpr.Be | bin/cc/cceval.cc:109-115 | The result variable is overwritten with the value. |
| Generator.EvalConstExpr | bin/cc/cceval.cc:102-573 | The evaluator that overwrites its result in place leaves in it the value `Fold` gives. |
| Generator.Generator.MkLval | bin/cc/fcode.cc:1459-1513 | The same for addresses and `EmitL`. |
| Generator.Generator.MkInit | bin/cc/fcode.cc:1976-1996 | A constant subtree is printed as its folded value. |
| Generator.Generator.MkFetch | bin/cc/fcode.cc:1208-1251 | Loads of variables and elements. |
| Generator.Generator.MkFetchDeref | bin/cc/fcode.cc:1565-1577 | Loads through pointers. |
| Generator.Generator.MkLogic | bin/cc/fcode.cc:1821-1833 | The logical operators. |
| Generator.Generator.MkAssign | bin/cc/fcode.cc:1844-1852 | `=`. |
| Generator.Generator.MkOpAssign | bin/cc/fcode.cc:1854-1968 | `op=`. |
| Generator.Generator.MkCond | bin/cc/fcode.cc:2007-2020 | `?:`. |
| Generator.Generator.MkCast | bin/cc/fcode.cc:2158-2174 | Casts. |
| Generator.Generator.MkCall | bin/cc/fcode.cc:1344-1376 | Calls. |
| Generator.Generator.MkArgs | bin/cc/fcode.cc:1344-1376 | The loop over the arguments. |
| Generator.Generator.MkIndex | bin/cc/fcode.cc:1262-1315 | Element addresses. |
| Generator.Generator.MkDecay | bin/cc/fcode.cc:1639-1678 | Pointer arithmetic used as an address. |
| Generator.Generator.DoBump | bin/cc/fcode.cc:1529-1554 | `++` and `--`. |
| Generator.Generator.MkStmt | bin/cc/fcode.cc:2342-2480 | Statements and `EmitS`. |
| Generator.Generator.MkIf | bin/cc/fcode.cc:2361-2384 | `if`. |
| Generator.Generator.MkDoWhile | bin/cc/fcode.cc:2397-2406 | `do`. |
| Generator.Generator.MkFor | bin/cc/fcode.cc:2408-2433 | `for`, with `repeat` also when there is no condition. |
| Generator.Generator.MkInits | bin/cc/fcode.cc:402-430 | The initializers of a block. |
| Generator.Generator.MkEffect | bin/cc/fcode.cc:2043-2156 | An expression whose value is not wanted. |
| Generator.Generator.MkBody | bin/cc/fcode.cc:2342-2359 | Compound statements. |
| Departures.SumOrRemainder | bin/cc/fcode.cc:1872-1879 | The sum that `%=` computes is the remainder exactly under a condition on the quotient. |
| Departures.ModAssignAdds | bin/cc/fcode.cc:1872-1879 | `x %= y` leaves x + y; it is the C result exactly under that condition. |
| Departures.LogicLeavesOperand | bin/cc/fcode.cc:1821-1833 | The logical operators leave the operand that decided; it is the C value exactly when that operand is 0 or 1. |
| Departures.UnitMinusLeavesBoth | bin/cc/fcode.cc:1727-1747 | Subtracting from a pointer to single units leaves both operands on the stack; for larger elements one cell. |
| Departures.VoidCastDropsTwice | bin/cc/fcode.cc:2043-2060 | Casting a void expression to void drops a cell it never pushed. |
| Departures.BytePrefixBump | bin/cc/fcode.cc:1529-1554 | Prefix `++` or `--` on an unsigned char leaves the stored value exactly when the byte does not wrap. |
| Departures.ByteOpAssign | bin/cc/fcode.cc:1854-1968 | `op=` on an unsigned char leaves the result before it is cut to a byte; it is the C value exactly when the result fits a byte. |
| Departures.ArrayStepsByWhole | bin/cc/fcode.cc:1650-1660 | `a + i` on an array where its address is asked for leaves the base plus the index times the size of the whole array; it is the C address if and only if the index times the surplus is a multiple of 2^32. |
| Departures.ArrayMinusDivides | bin/cc/fcode.cc:1663-1669 | `a - i` there takes the index off unscaled and divides by the size of the whole array. |
| Bitfields.RunGet | bin/cc/fcode.cc:734-753 | The words that load a bitfield leave the extracted field, for all widths, shifts and contents. |
| Bitfields.RunSet | bin/cc/fcode.cc:549-575 | The words that store a bitfield consume their three cells, leave the return stack alone and store the unit with the field's bits replaced. |
| Bitfields.SetThenGet | bin/cc/fcode.cc:549-575 | When the field lies in the accessed unit, set then get gives the value modulo 2^width, and every other bit of the unit and every other byte stays. |
| Bitfields.OtherFieldKept | bin/cc/fcode.cc:734-753 | A field apart from the stored one reads as before. |
| Grammar.ParsesAssignment | bin/cc/parser.cc:2464-2621 | With the caller's stop level for an argument, the parser accepts exactly the assignment expressions. |
| Grammar.ParsesConditional | bin/cc/parser.cc:2464-2621 | With that for a case label, exactly the conditional expressions. |
| ExprParser.ParsesBack | bin/cc/parser.cc:2464-2621 | Every shaped tree is read back from its tokens, which are consumed exactly. |
| ExprParser.PrintIsShortest | bin/cc/parser.cc:9410-9458 | No shorter text parses to the same tree. |
| ExprParser.PlaceShortest | bin/cc/parser.cc:9410-9458 | The same in any context that asks for a binding level. |
| ExprParser.CastSound | bin/cc/parser.cc:2353-2461 | What an operand reads is a shaped operand and its tokens. |
| ExprParser.ClimbOperator | bin/cc/parser.cc:2545-2566 | The shortcut for a left-associative operator followed by a looser one gives what the recursive call would. |
| ExprParser.Parser.PeekOpPrec | bin/cc/parser.cc:9410-9458 | The precedence of the operator at the cursor, 0 for none, without moving. |
| ExprParser.Parser.CastExpr | bin/cc/parser.cc:2353-2461 | The cursor form of the operand parser agrees with `Cast` on result and remaining tokens. |
| ExprParser.Parser.Expression | bin/cc/parser.cc:2912-2976 | The cursor form agrees with `Parse`, for expressions and assignment expressions. |
| ExprParser.Parser.FExpr | bin/cc/parser.cc:2464-2621 | The loop agrees with `Climb`. |
| IfValues.SignedDivides | bin/cc/cppif.cc:203-231 | Signed `/` and `%` round toward zero with the remainder's sign that of the dividend; division by zero leaves the left operand. |
| IfValues.UnsignedDivides | bin/cc/cppif.cc:203-231 | With an unsigned operand they divide the unsigned values. |
| IfValues.UnsignedOrder | bin/cc/cppif.cc:318-417 | With an unsigned operand, comparisons are of the unsigned values; their result is signed. |
| IfValues.UnsignedShifts | bin/cc/cppif.cc:277-314 | An unsigned left operand shifts modulo 2^32, zeros coming in. |
| IfValues.BitsAreC | bin/cc/cppif.cc:420-481 | `&`, `^` and or bit by bit, by arithmetic on single bits. |
| IfValues.Connectives | bin/cc/cppif.cc:484-523 | The connectives by whether the unsigned values are zero. |
| IfValues.PrefixIsC | bin/cc/cppif.cc:148-176 | Prefix operators: the compiler's on signed operands, modulo 2^32 on unsigned ones. |
| IfValues.AtomIsC | bin/cc/cppif.cc:85-145 | A name left over is zero, a number its value modulo 2^32. |
| IfExpr.LayerAgrees | bin/cc/cppif.cc:179-523 | Each layer is climbing down to its precedence and evaluating. |
| IfExpr.UnaryAgrees | bin/cc/cppif.cc:84-176 | The same for primaries and prefix operators. |
| IfExpr.ClimbInStages | bin/cc/cppif.cc:179-523 | Climbing to a stop level goes through every higher one. |
| IfExpr.Evaluator.EvalUnary | bin/cc/cppif.cc:84-176 | The cursor form with the result overwritten by reference agrees with `Unary`. |
| IfExpr.Evaluator.EvalLayer | bin/cc/cppif.cc:179-523 | The same for `Layer`. |
| IfExpr.Evaluator.EvalMore | bin/cc/cppif.cc:179-523 | The loop of a layer. |
| IfExpr.Evaluator.EvalConditional | bin/cc/cppif.cc:525-550 | The same for `?:`, both arms being read. |
| Declarators.FillMeaning | bin/cc/parser.cc:9460-9521 | Filling the hole afterwards equals starting with what is put in it, for every declarator; the hole is an element type exactly when the derivation next to the base is an array. |
| Declarators.ReadsOnlyDeclarators | bin/cc/parser.cc:5718-6258 | Whatever is read is a declarator followed by what was left, with the type of the definition. |
| Declarators.TakesPointers | bin/cc/parser.cc:6260-6337 | The pointer loop with its qualifier lists. |
| Declarators.TakesArrays | bin/cc/parser.cc:6339-6502 | Array suffixes nest from the last to the first. |
| Declarators.WriteMeans | bin/cc/parser.cc:9460-9521 | Writing a type as a declarator keeps its meaning and never needs bare parentheses. |
| TypeBuilder.ShapeFill | bin/cc/parser.cc:9460-9521 | Plugging a type joins the two chains of derivations. |
| TypeBuilder.Plug | bin/cc/parser.cc:9483-9511 | One link written: the two chains of nodes are one type. |
| TypeBuilder.Parser.Qualifiers | bin/cc/parser.cc:6287-6300 | The loop over `const` and `volatile`. |
| TypeBuilder.Parser.Pointers | bin/cc/parser.cc:6260-6337 | The loop of `*` puts fresh nodes in front of the type. |
| TypeBuilder.Parser.Arrays | bin/cc/parser.cc:6339-6502 | The array suffixes. |
| TypeBuilder.Parser.Call | bin/cc/parser.cc:6036-6200 | The function suffix. |
| TypeBuilder.Parser.Suffix | bin/cc/parser.cc:6015-6212 | An array or function suffix, or none. |
| TypeBuilder.Parser.Declarator | bin/cc/parser.cc:5718-6258 | The recursive parser leaves linked nodes that are the type `Declare` computes, a fresh part in front of the caller's nodes, and counts an error exactly when one is due. |
| TypeBuilder.Parser.DirectDeclarator | bin/cc/parser.cc:5745-6250 | The same for what follows the pointers. |
| Macros.ExpandedIsDone | bin/cc/cppmac.cc:510-545 | For every table, no IDENTIFIER in an expanded buffer names an object-like macro that is on. |
| Macros.CallIsDone | bin/cc/cppmac.cc:105-220 | The same for one expanded call; a name left alone is a function-like macro's or one that is off. |
| Macros.NestedIsReference | bin/cc/cppmac.cc:205-217 | In the middle of nested expansions of object-like macros, the buffer is the reference's once the names that are off are painted. |
| Macros.ExpandTwice | bin/cc/cppmac.cc:510-545 | For such tables, self- and mutually recursive ones included, expanding the result again changes nothing. |
| Substitution.TakesArguments | bin/cc/cppmac.cc:128-170 | Arguments with balanced parentheses, joined by commas, are taken apart again, newlines in them as white space, and the text goes on after the parenthesis. |
| Substitution.SubstFills | bin/cc/cppmac.cc:262-505 | For every body of tokens, parameters, `#` with a parameter and `##` between two, with any white space: the substitution is its parts filled one by one. |
| Substitution.PasteChain | bin/cc/cppmac.cc:284-300 | Of two `##` in a row without white space only the first pastes; the second is left as a token. |
| Substitution.NameAlone | bin/cc/cppmac.cc:176-190 | A function-like name without a parenthesis stays, and of the text after it one token is left. |
| Macros.LeftoverNameExpands | bin/cc/cppmac.cc:185-198 | With a function-like macro a second expansion can do more: a concrete table and buffer. |
| Macros.Fewer | bin/cc/cppmac.cc:208-210 | Switching a macro off leaves fewer macros on, the first part of the measure by which all expansion ends. |
| Macros.TakeArgs | bin/cc/cppmac.cc:130-180 | The arguments of a call, each shorter than the text they came from; the rest is shorter too. |
| Expander.Cpp.Scan | bin/cc/cppscan.cc:330-348 | The next token of the topmost buffer that has any left; buffers are only advanced, exhausted ones popped. |
| Expander.Cpp.TakeOne | bin/cc/cppmac.cc:139-166 | One argument, with nested parentheses. |
| Expander.Cpp.TakeAll | bin/cc/cppmac.cc:133-178 | All arguments. |
| Expander.Cpp.Collect | bin/cc/cppmac.cc:117-202 | Arguments or, without a parenthesis, the pushed-back buffer that ends at its one token. |
| Expander.Cpp.Rescan | bin/cc/cppmac.cc:207-210 | The replacement is expanded with the macro off, and the flag is on again afterwards. |
| Expander.Cpp.Call | bin/cc/cppmac.cc:204-217 | Substitution, rescan and painting leave what `Call` gives. |
| Expander.Cpp.ExpandMacro | bin/cc/cppmac.cc:105-220 | One macro: the outcome of `Expand`, flags as found, the stack as that outcome says. |
| Expander.Cpp.Piece | bin/cc/cppmac.cc:266-505 | What one body token puts in the buffer: paste, string, expanded argument or itself. |
| Expander.Cpp.ExpandMacroBody | bin/cc/cppmac.cc:222-508 | The loop over the body gives `Subst`. |
| Expander.Cpp.Turn | bin/cc/cppmac.cc:524-541 | One turn of the loop brings the measure down, also after an unclosed argument list. |
| CondInclude.SkipItems | bin/cc/cppif.cc:685-802 | Skipping passes over whole nested sections and changes nothing but deeper `#else` marks. |
| CondInclude.SkipGroups | bin/cc/cppif.cc:715-768 | The same for the groups of a nested section. |
| CondInclude.SkipRest | bin/cc/cppif.cc:758-768 | Skipping what is left of a section ends at its own `#endif`. |
| CondInclude.RunTail | bin/cc/cppif.cc:874-924 | After a chosen group, the rest of the section is skipped without evaluating a condition. |
| CondInclude.Choose | bin/cc/cppif.cc:725-757 | With no true group yet, the next `#elif` is tried or the `#else` group read. |
| CondInclude.RunSection | bin/cc/cppif.cc:656-681 | One section: exactly its first true group or its `#else` group. |
| CondInclude.RunItems | bin/cc/cppif.cc:656-955 | A well-nested list of lines is read as its groups say, level and errors as found. |
| CondInclude.RecordedGuards | bin/cc/cppif.cc:938-954 | For every line sequence, nested well or not: a controlling expression recorded with no file included before it does stand around the whole file. |
| CondInclude.GuardedShowsNothing | bin/cc/cppif.cc:670-673 | Reading a guarded file whose condition is false emits nothing, keeps the macros and evaluates that condition once. |
| CondInclude.CacheIsSound | bin/cc/cppdir.cc:165-187 | Skipping by a recorded expression that is now false is equivalent to reading the file. |
| Directives.Cpp.IfDirective | bin/cc/cppif.cc:656-681 | The directive leaves the state and cursor `CondInclude.IfDirective` gives. |
| Directives.Cpp.SkipIf | bin/cc/cppif.cc:685-802 | The skipping loop leaves the state and cursor `CondInclude.SkipIf` gives. |
| Directives.Cpp.TryElif | bin/cc/cppif.cc:743-756 | An `#elif` reached by skipping takes the place of its `#if`. |
| Directives.Cpp.ElifDirective | bin/cc/cppif.cc:874-897 | `#elif` after a chosen group. |
| Directives.Cpp.ElseDirective | bin/cc/cppif.cc:899-924 | `#else` after a chosen group. |
| Directives.Cpp.EndifDirective | bin/cc/cppif.cc:926-955 | `#endif`, and whether the controlling expression is recorded. |
| Directives.Cpp.Turn | bin/cc/cppscan.cc:383-470 | One line, and what it skips, as `CondInclude.Turn` says. |
| Directives.Includer.ReadFile | bin/cc/cppdir.cc:217-336 | A file and all it includes, each a cursor of its own over one cache, is `Inclusion.Cached`. |
| Directives.Includer.CheckControl | bin/cc/cppdir.cc:165-187 | A file is skipped exactly when its recorded expression is false now; if the cache is sound, reading it would emit nothing, keep the macros and evaluate only that expression. |
| CondInclude.RecordsGuard | bin/cc/cppif.cc:926-955 | Whatever the conditions and the macros, what reading a well-nested file records can be read off its text: the condition of a last section with one group that comes first, or first after an inclusion. |
| Inclusion.NeverLateExactly | bin/cc/cppif.cc:938-954 | A well-nested file never records an unclean expression if and only if its text gives none. |
| Inclusion.FullIsRun | bin/cc/cppdir.cc:217-336 | Reading that opens every file is the reading of one file, in the world where an included file is what reading it so gives. |
| Inclusion.CachedIsFull | bin/cc/cppdir.cc:165-187 | What reading with the cache comes to, reading that opens every file comes to with one file more open, and the cache stays sound. |
| Inclusion.FullIsCached | bin/cc/cppdir.cc:165-187 | Where reading that opens every file ends, reading with the cache ends. |
| Inclusion.FullGuarded | bin/cc/cppif.cc:670-673 | A guarded file whose condition is false opens no other file. |
| Inclusion.LateLoses | bin/cc/cppdir.cc:269 | Any file whose guard follows an inclusion of its own, included twice: the second time what it includes is lost. |
| CleanBuffer.LinesKept | bin/cc/cppscan.cc:59-318 | For every text, newlines written plus newlines owed equal newlines read. |
| CleanBuffer.PlainRun | bin/cc/cppscan.cc:84-99 | Ordinary characters are copied as they are. |
| CleanPieces.LiteralCopied | bin/cc/cppscan.cc:174-194 | From its opening quote a string literal or character constant is copied to the closing one, escapes and spliced lines in it included. |
| CleanPieces.CommentIsSpace | bin/cc/cppscan.cc:196-249 | A comment, its marks spliced or not, is one space, and its newlines are owed. |
| CleanPieces.LineCommentIsSpace | bin/cc/cppscan.cc:251-308 | The same for a comment to the end of the line. |
| CleanPieces.CloserMissed | bin/cc/cppscan.cc:218-229 | A closing mark with a backslash, carriage return and newline in it is not seen. |
| CleanPieces.TrigraphRead | bin/cc/cppscan.cc:113-140 | Each of the nine trigraphs of section 5.2.1.1 is read as its character. |
| CleanBuffer.MemCpy | bin/cc/cppscan.cc:93-99 | Moving text toward the start of the buffer puts it where it should be even when the places overlap. |
| CleanBuffer.ScanComment | bin/cc/cppscan.cc:218-231 | To where a C comment closes, counting its newlines. |
| CleanBuffer.SkipComment | bin/cc/cppscan.cc:196-246 | Past a C comment. |
| CleanBuffer.SkipLine | bin/cc/cppscan.cc:251-308 | Past a comment that ends with its line. |
| CleanBuffer.Cleaner.Balanced | bin/cc/cppscan.cc:59-318 | At every point of the run, newlines written, owed and still to be read add up to those of the text. |
| CleanBuffer.Cleaner.CopyRun | bin/cc/cppscan.cc:86-99 | The run of ordinary characters at the read cursor is moved. |
| CleanBuffer.Cleaner.Question | bin/cc/cppscan.cc:113-140 | A trigraph becomes its character. |
| CleanBuffer.Cleaner.Backslash | bin/cc/cppscan.cc:142-159 | A spliced newline is owed; an escape is copied whole. |
| CleanBuffer.Cleaner.Newline | bin/cc/cppscan.cc:165-172 | The newlines owed are written before an ordinary newline. |
| CleanBuffer.Cleaner.Slash | bin/cc/cppscan.cc:192-315 | A comment becomes one space. |
| CleanBuffer.Cleaner.Cleanup | bin/cc/cppscan.cc:59-318 | The in-place loop reaches the NUL with everything written; each step keeps the write cursor plus the newlines owed at or before the read cursor (`Valid`). |
| StructLayout.RoundUpLeast | bin/cc/cctype.cc:377-512 | The reference rounds to the least multiple of an alignment, so padding is minimal. |
| StructLayout.SkipRounds | bin/cc/cctype.cc:415-441 | What the running count skips is exactly rounding the position up, while position plus pad is a multiple of the struct's alignment. |
| StructLayout.MembersApart | bin/cc/cctype.cc:377-512 | Members lie in order without overlap, each aligned. |
| StructLayout.LaterMembers | bin/cc/cctype.cc:377-512 | The same for any two members. |
| StructLayout.ArrayElementsAligned | bin/cc/cctype.cc:254 | The size is a multiple of the alignment, so in arrays every member of every element is aligned. |
| StructLayout.MaxAlignDivides | bin/cc/cctype.cc:355-375 | The struct's alignment is a multiple of every member's. |
| StructLayout.DoAlign | bin/cc/cctype.cc:355-375 | The loop gives the largest alignment. |
| StructLayout.Advance | bin/cc/cctype.cc:415-487 | The arithmetic of one member's turn keeps the count and finds the rounded place. |
| StructLayout.Record | bin/cc/cctype.cc:418-463 | The gap and the offset are written on the members. |
| StructLayout.PrintFields | bin/cc/fcode.cc:211-241 | The `field` words add up to the struct's size, and each member's running sum is its offset. |
| StructLayout.FieldAndGap | bin/cc/fcode.cc:228-236 | A member's size and its recorded gap lead to the next member's offset. |
| SwitchCases.ClashIsMeeting | bin/cc/ccnode2.cc:386-397 | For two cases in order of low values the comparison reports an error exactly when some value belongs to both. |
| SwitchCases.MeetingNeighbours | bin/cc/ccnode2.cc:382-397 | If any two sorted cases meet, two neighbours do. |
| SwitchCases.OrderIrrelevant | bin/cc/ccnode2.cc:270-406 | Permuting the cases does not change whether any two meet. |
| SwitchCases.Sort | bin/cc/ccnode2.cc:256-268 | A permutation in order of low values. |
| SwitchCases.Scan | bin/cc/ccnode2.cc:288-365 | Two defaults or an inverted range give the check up. |
| SwitchCases.Compare | bin/cc/ccnode2.cc:386-397 | An error for every neighbouring pair that clashes and no other. |
| HashTables.Relink | bin/domail/hashtable.c:106-110 | An entry goes to the front of the bucket its hash selects. |
| HashTables.MoveChain | bin/domail/hashtable.c:104-111 | A whole list is redistributed; nothing is lost. |
| HashTables.MoveAll | bin/domail/hashtable.c:101-114 | All buckets are redistributed. |
| HashTables.Promote | bin/domail/hashtable.c:136-145 | A found entry is relinked in front of its chain; the others keep their order. |
| HashTables.Drain | bin/domail/hashtable.c:181-204 | Every entry is visited once and the buckets are empty. |
| HashTables.HashTable.Expand | bin/domail/hashtable.c:88-119 | Growth keeps the entries, each in bucket hash mod len. |
| HashTables.HashTable.Lookup | bin/domail/hashtable.c:121-151 | The entry with this key and hash if there is one, none otherwise; the entries are the same. |
| HashTables.HashTable.Add | bin/domail/hashtable.c:153-179 | One entry more, after growing when the table is full enough; size stays at most 2·len + 1 as long as there is room to grow. |
| HashTables.HashTable.Clear | bin/domail/hashtable.c:181-204 | Every entry is destroyed once. |
| HashTables.Do | bin/domail/hashtable.c:88-204 | One action keeps the table standing for the finite map. |

## Left out

- Floating point, strings, struct-valued assignment and initializer lists of the generator: unsupported or incomplete in the source.
- `goto`, labels, `continue` and loop `break`: the generator rejects them. `switch` emission: well formed only for special shapes.
- Unsigned and 64-bit arithmetic and `short` and `long` objects: cells are 32 bits, objects are `int`, `unsigned char`, pointers and arrays.
- Where the engine places `variable` words is a parameter; `Reentry.Placed` says when they are apart. That a variable's name is spelled like a number is covered; the numbers printed before `buffer:` and in initial values are left out.
- Acceptance.Text: a function is printed as a colon definition. `main` and functions expanded inline are printed without `:` and `;`, which is left out, as are types, enumerations and `asm` functions. Names are arbitrary, so the pragma `alias` is covered.
- Threaded.Size: fewer than 0x800 names in a file and fewer than 0x7000 words in memory, as the numbers of FCodes and tokens in the bytes counted; no limit on the size of a definition or on the engine's stacks. After a stray patch the model says only that loading fails.
- Reading.Read: a word of the engine that the generator never prints is taken as an error; so are words with `.` or `,` in them and constants that start with `0x`, which no name in C is.
- Definitions.Load1: each definition starts with an empty control stack, as one that comes out as its own code leaves it.
- Generator.Generator.MkFunction: the words that define the variables and the frame are not printed by the walk; what they put into the dictionary is in `Definitions.Definition`.
- Simulation.SimEnter: variables outside frames keep their address from call to call; that no two activations hold them at once is `Compiler.CallNeverClashes`.
- Simulation.SimR: constructs listed in `Departures` are outside `Supported.Ok`, `op=` on an unsigned char in value position among them; the logical operators are claimed by truth value. A comma expression of two constants is outside because the compiler stops on it.
- ConstFold.FoldBinaryOk: `FoldOk` is sufficient for a tree; exactness is claimed operator by operator, since two wrong results can cancel.
- CSemantics treats a store over the link cell of an active frame as undefined; C objects never overlap one.
- Frames.ArgumentsLand: assumes an allocator whose blocks are apart from the live ones; the engine's allocator is not part of this model.
- Bitfields.ReadsBackExactly: widths and shifts below 32; placement of bitfields in a struct is left out, since the layout loop lets them straddle words.
- StructLayout.Size: structs without bitfields and with power-of-two alignments; unions and base classes are left out.
- ExprParser.ParsesExactly: postfix operators, casts, `sizeof` and C++ primaries are not modelled; a syntax error ends the parse, without resynchronization.
- IfExpr.ConditionalAgrees: `long` is taken to have 32 bits; the smallest number divided by -1 and shifts by a negative or over-wide count give whatever the host gives, as a parameter; shifts of negative values are arithmetic, as on the usual hosts. Replacing `defined` and expanding macros come before and are left out.
- Grammar.ParsesGrammar: the same; a cast expression is a unary expression.
- ExprParser.CastSound: casts, postfix operators and `sizeof` are left out of operands.
- ExprParser.Parser.CastExpr: the same.
- Declarators.TakesArrays: an array length is one token.
- TypeBuilder.Parser.Arrays: an array length is one token.
- TypeBuilder.Parser.Call: a parameter list is one token.
- Declarators.ReadsDeclarator: a parameter list and an array length are one token each; references, member functions, constructors and identifier lists are left out.
- Macros.ExpandsToReference: object-like macros only; calls are in `Substitution`. For a function-like name without a parenthesis the model follows the code (`Substitution.NameAlone`).
- Substitution.ExpandsCall: which text `##` and `#` make is a parameter, given the operands as they were written; a `##` right after another is in `Substitution.PasteChain`.
- Substitution.NestedCallsExpand: bodies that name macros are covered by `Substitution.ExpandsCall`, where the rescan stands as it is.
- Expander.Cpp.ExpandAllMacros: after an argument list that runs off the end, an error in the source, only termination, the flags, the stack top and the current token are claimed. Pasting and stringizing are parameters, so the extra file pushed for scanning a paste is not modelled. The outer rescan of `Cpp::scan`, where leftover names may meet a later parenthesis, is left out.
- CondInclude.RunsGroups: a file is a sequence of whole lines; quotes in skipped text are taken to be closed. A `#include` is one whose name is quoted in place; the macro form writes no NUL.
- CondInclude.SkipItems: the report of a missing `#endif` depends in the source on the last token scanned; the model reports it whenever a section is open at the end of skipping.
- Directives.Cpp.SkipIf: the same report of a missing `#endif`.
- Directives.Includer.Open: a file that includes itself without end exhausts memory; the model takes a depth and gives no result beyond it. A condition depends on the macros only, not on `__FILE__` and `__LINE__`, and a file has one name, so the search path is left out. For files that are not well nested, whether they are steady is not read off the text.
- CondInclude.CacheIsSoundExactly: a file is taken to have the same text each time it is read.
- CleanPieces.CleansPieces: texts in which a star in a comment, or a slash outside, is followed by a backslash or question mark that is no splice are left out, as are literals and comments that do not end; trigraphs in a literal are `CleanPieces.TrigraphRead`.
- CleanBuffer.CleanupBuf: the buffer ends with a newline and a NUL; memcpy on overlapping places is taken to copy forward.
- SwitchCases.Sort: stands for qsort, which is not part of this model. Casting and folding case expressions come before.
- HashTables.Run: a failed allocation of the larger bucket array is covered by `HashTable.Add`, not by runs.
- Diagnostics text, scopes and symbol tables, file lookup and the command line.
