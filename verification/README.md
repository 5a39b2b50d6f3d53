# Verification of luajit-rs

A Dafny model of the parts of luajit-rs, a LuaJIT in Rust, in which one pass of
code has to be right about many later ones: the expression compiler that links
jumps through the instructions themselves, the names and upvalues of nested
functions, the tracing just-in-time compiler with its snapshots and inlined
frames, the life of traces and the patches they leave in the bytecode, the
bytecode file format, and the C declarations of the foreign-function interface.

Code that changes things in place is a class or a loop here too, and each method
is proved against a specification function or an invariant; what the source
promises is then proved of those. `dafny verify dfyconfig.toml` checks everything.

## What is modelled

- **Expressions** (`Bytecode`, `Exec`, `Patching`, `JumpLists`, `Delivery`,
  `Emission`, `Steps`, `Branches`, `Resolve`, `NilMerge`, `Operands`,
  `ExprCompiler`). `FuncState` holds the instruction array, the pending jumps and
  the free register, and compiles constants, locals and upvalues,
  comparisons, `not`, `and`, `or`, `??`, `c ? a : b` and parentheses in one pass.
  A half-compiled expression is a *view*: code, and the two lists of jumps that
  have no target yet. A *job* says what every run from the view's start must
  deliver and where. Each emission maps sound views to sound views, so the code
  of a chunk of `local` statements leaves every initializer's value in its
  register, on all runs and from any register contents.
- **Operators** (`Precedence`). The climbing parser as a class and as a function.
- **Names** (`Upvalues`, `NameScopes`, `ChunkNames`). The variable stack, the 32
  hash chains and the upvalue tables of all open functions, and the names of a
  whole chunk from its first function to its last.
- **Long brackets** (`LongBrackets`). The character loop of long strings and
  comments.
- **Bytecode files** (`DumpFormat`, `DumpRoundTrip`, `DumpLayout`, `Dumper`).
- **C types** (`DeclSyntax`, `DeclParser`, `CTypes`, `CTypeNames`, `CTypeRoundTrip`,
  `StructLayout`, `StructParser`). Abstract declarators, the type table, the names
  of types, and the layout of structs and unions.
- **Traces** (`IrBuffer`, `TraceVm`, `TraceIr`, `Snapshots`, `TraceRecorder`,
  `TraceExec`, `WhileLoop`, `CopyTests`). The recorder follows the interpreter and grows the
  trace; the portable executor runs it. Numbers are an abstract type with an
  arithmetic given by the parameter `w`; nothing is assumed of it, so rounding
  does not matter to the results.
- **Inlined calls** (`Frames`, `FrameReplay`, `SideTrace`). Calls, tail calls and
  returns within a trace, the frame links in snapshots, and the start of a side
  trace from such a snapshot.
- **The life of traces** (`Penalties`, `Registry`, `TraceLife`). Hot counters that
  underflow, recordings that stop or fail, penalties, patches, exits, flushes and
  the drops of `jit.flush` and `debug.sethook` are events, and the results hold
  after every sequence of them. A drop leaves entries of traces in the bytecode;
  the model keeps the set of these stale entries, and the results say what holds
  of them and what of all other instructions.

## Model

| member | source | states |
|---|---|---|
| ExprCompiler.FuncState.ParseChunk | crates/luajit-rs/src/compiler/parse.rs:2691-2757 | A chunk of `local` statements, each with one expression: if it compiles, then on every machine whose constants extend the compiled tables and from any register contents, the code runs to the final return, with the value of each initializer in its local's register. It fails only at a limit of registers, locals, constants or jump distance. |
| ExprCompiler.FuncState.Expr | crates/luajit-rs/src/compiler/parse.rs:2447-2481 | Any expression of the modelled language compiles into code and two jump lists that together deliver its value, or branch on it, from where it starts; code before it that others depend on is kept. |
| ExprCompiler.FuncState.ExprCoal | crates/luajit-rs/src/compiler/parse.rs:2463-2481 | `a ?? b`: the value of `a` unless it is nil, else that of `b`, with `b` run only then. |
| ExprCompiler.FuncState.ExprChoose | crates/luajit-rs/src/compiler/parse.rs:2463-2481 | `c ? a : b`: the value of the alternative the condition picks, with only that one run. |
| ExprCompiler.FuncState.ShortCircuit | crates/luajit-rs/src/compiler/parse.rs:1138-1188 | `and` and `or`: joining the left operand's open jumps to the right operand's gives the list of the whole, and its value is the operand the language picks. |
| ExprCompiler.FuncState.BcEmitNot | crates/luajit-rs/src/compiler/parse.rs:1190-1236 | `not`: the two lists change places, copies on them are dropped, constants fold, and the value delivered is the negation. |
| ExprCompiler.FuncState.BcEmitComp | crates/luajit-rs/src/compiler/parse.rs:1051-1114 | A comparison becomes a test and one open jump that is taken exactly when the comparison holds, for all operand kinds and with operands swapped where an instruction wants it; the operands are evaluated in order. |
| ExprCompiler.FuncState.BcEmitBranchT | crates/luajit-rs/src/compiler/parse.rs:926-945 | Control goes on behind the code exactly when the expression is true; every other run is on the false list, and the true list is resolved. |
| ExprCompiler.FuncState.BcEmitBranchF | crates/luajit-rs/src/compiler/parse.rs:947-967 | The same with true and false exchanged. |
| ExprCompiler.FuncState.ExprToReg | crates/luajit-rs/src/compiler/parse.rs:747-779 | The value of an expression with open jumps ends up in the wanted register on every run, and no jump is left open. |
| ExprCompiler.FuncState.ExprToRegNoBranch | crates/luajit-rs/src/compiler/parse.rs:703-745 | The same for the part without jumps; a jump expression is left as it is. |
| ExprCompiler.FuncState.ExprDischarge | crates/luajit-rs/src/compiler/parse.rs:617-647 | Variables become registers or relocatable loads, and what is delivered does not change. |
| ExprCompiler.FuncState.BcEmitNil | crates/luajit-rs/src/compiler/parse.rs:649-701 | A nil load, merged into a nil load right before it only where no jump can land between the two: all runs deliver the same. |
| ExprCompiler.FuncState.BcEmit | crates/luajit-rs/src/compiler/parse.rs:586-601 | Every pending jump is pointed at the new instruction, the copies of tests on the list are dropped, nothing is pending afterwards, and no other instruction changes. |
| ExprCompiler.FuncState.BcEmitJmp | crates/luajit-rs/src/compiler/parse.rs:882-897 | The new jump heads a list that goes on with all that was pending. |
| ExprCompiler.FuncState.JmpAppend | crates/luajit-rs/src/compiler/parse.rs:492-507 | Two disjoint lists become their concatenation; only the last jump of the first list is changed. |
| ExprCompiler.FuncState.JmpPatchVal | crates/luajit-rs/src/compiler/parse.rs:509-519 | Each jump of the list is visited once: those behind a test that delivers a value go to the value target with their test pointed at the register, the others go to the other target. |
| ExprCompiler.FuncState.JmpPatchTestReg | crates/luajit-rs/src/compiler/parse.rs:443-474 | Says whether the instruction before a jump delivers a value, and what it and the jump become for the wanted register: kept, a plain test, or a jump whose base covers it. |
| ExprCompiler.FuncState.JmpNovalue | crates/luajit-rs/src/compiler/parse.rs:432-441 | True exactly if some jump of the list is not behind a copying test. |
| ExprCompiler.FuncState.JmpDropVal | crates/luajit-rs/src/compiler/parse.rs:476-481 | Every copying test of the list becomes a plain test and the list stays the same list. |
| Resolve.Settle | crates/luajit-rs/src/compiler/parse.rs:747-779 | Resolving both lists with the true and false loads behind the code delivers the expression's value in the target register on every path. |
| Patching.RunPatched | crates/luajit-rs/src/compiler/parse.rs:443-519 | Rewriting the tests of a list and retargeting its jumps changes runs exactly by sending the open ends of that list to the new places with the copied value; all other runs are the same. |
| Precedence.ParsesBack | crates/luajit-rs/src/compiler/parse.rs:2428-2461 | The tokens of a tree parse back into it if and only if every operator outside parentheses is grouped as the priority table asks and the levels stay below 200; a grouped tree that is too deep fails as too deep. |
| Precedence.OneGrouping | crates/luajit-rs/src/compiler/parse.rs:165-190 | No two trees grouped by the table have the same tokens. |
| Precedence.PrintParse | crates/luajit-rs/src/compiler/parse.rs:165-218 | Printing with parentheses only where the priorities would regroup, then parsing, gives the tree back; no text that parses into the same operators has fewer parentheses. |
| Precedence.Parser.ExprBinop | crates/luajit-rs/src/compiler/parse.rs:2447-2461 | The loop, its recursion and the operator handed back agree with the grouping proved above, and the level is restored. |
| Precedence.Parser.ExprUnop | crates/luajit-rs/src/compiler/parse.rs:2428-2445 | Unary operators take an operand that binds tighter than 12. |
| Precedence.Reparse | crates/luajit-rs/src/compiler/parse.rs:2463-2464 | Through the parser itself: the printed tree comes back, or it is too deep. |
| Precedence.TwoOperators | crates/luajit-rs/src/compiler/parse.rs:165-190 | `x a y b z` for any two binary operators: the one in the tighter class of section 3.4.8 of the Lua 5.3 Reference Manual takes `y` (`or`, then `and`, comparison, `|`, `~`, `&`, shift, `..`, `+ -`, `* / // %`, `^`), and within a class the left one, except for `..` and `^`, where it is the right one. |
| Precedence.UnaryOperator | crates/luajit-rs/src/compiler/parse.rs:2428-2445 | A unary operator binds tighter than every binary one but `^`. |
| ChunkNames.CompileNames | crates/luajit-rs/src/compiler/parse.rs:1797-1816 | Every event of a sequence of openings, declarations, activations, ends, assignments and uses is carried out, up to a limit that is hit. In the chunk that comes out, each use of a name leads to its variable: the function it stands in is there, the place the name was resolved to is a register of that function or an upvalue of it, and that upvalue, followed outwards, ends at the register of the function that declared the variable. So does every upvalue of every function. |
| ChunkNames.Handle | crates/luajit-rs/src/compiler/parse.rs:1288-1465 | Each event does what it stands for to the open functions and the variables, and fails only at a limit: opening and closing functions, declaring, activating and ending variables, assigning, and resolving a name to the newest active variable. |
| ChunkNames.EventKept | crates/luajit-rs/src/compiler/parse.rs:1759-1862 | A function, looked up by its place in the chunk, keeps its variables and its upvalues through every later event, while it is open, when it is finished and when the functions around it are; upvalues are only added at the end. |
| ChunkNames.UsedRight | crates/luajit-rs/src/compiler/parse.rs:1397-1465 | What a use was resolved to is right in every later moment: the same register, or the same upvalue of the same function, which leads to the variable. |
| NameScopes.Scopes.VarLookup | crates/luajit-rs/src/compiler/parse.rs:1358-1395 | The search through one hash chain finds the newest active variable of the name in any open function, as a linear search does, and nothing if there is none. |
| NameScopes.Scopes.VarResolve | crates/luajit-rs/src/compiler/parse.rs:1397-1465 | A variable of an outer function is captured by every function in between, each once and the others not at all, and the captures of one function name those of the next; it fails exactly because a function on the way is full. |
| NameScopes.Scopes.VarAdd | crates/luajit-rs/src/compiler/parse.rs:1325-1341 | Activating variables gives them the next registers in order, and keeps every chain the active variables of its hash, newest first. |
| NameScopes.Scopes.VarRemove | crates/luajit-rs/src/compiler/parse.rs:1343-1356 | Ending variables takes them off their chains and uncovers what they shadowed. |
| NameScopes.Scopes.VarNew | crates/luajit-rs/src/compiler/parse.rs:1288-1318 | A declared variable is on no chain yet; it is refused only at a limit. |
| NameScopes.Scopes.FsFinish | crates/luajit-rs/src/compiler/parse.rs:1759-1862 | The finished function has the variables declared in it, the upvalues captured in it, in order, each encoded by the register or by the upvalue of the enclosing function it stands for, and the functions inside it with their entries completed and nothing else changed; the enclosing function gets it as its last and is otherwise as it was. All that was captured inside, at any depth, is right. |
| NameScopes.Scopes.FsInit | crates/luajit-rs/src/compiler/parse.rs:1878-1890 | A new function starts above all variables so far. |
| Upvalues.FollowsHome | crates/luajit-rs/src/compiler/parse.rs:1797-1816 | In a chunk whose functions are right inside each other, following an upvalue ends at the declaring function's register: the encoding by the size of the variable stack never confuses the two kinds of entry. |
| LongBrackets.Lexer.LongString | crates/luajit-rs/src/compiler/lex.rs:395-431 | At any level, exactly the text before the first closing bracket of that level, with every line break as one line feed and the one behind the opening bracket dropped; shorter and longer brackets in the text are text. It fails exactly if there is no closing bracket, or the lines run out first. |
| LongBrackets.Lexer.SkipEq | crates/luajit-rs/src/compiler/lex.rs:385-393 | The level of the bracket at the cursor, or by how much it is none. |
| LongBrackets.Lexer.TryClose | crates/luajit-rs/src/compiler/lex.rs:407-411 | Equal signs once passed are never read again, and no closing bracket is missed by that. |
| LongBrackets.Lexer.ScanBracket | crates/luajit-rs/src/compiler/lex.rs:664-678 | An opening bracket begins a long string, is a token, or is refused, by the equal signs behind it. |
| LongBrackets.Lexer.ScanComment | crates/luajit-rs/src/compiler/lex.rs:596-609 | A bracketed comment ends where the long string would; any other at the end of its line. |
| LongBrackets.Lexer.Newline | crates/luajit-rs/src/compiler/lex.rs:285-296 | A carriage return and a line feed, in either order, are one line break. |
| LongBrackets.QuoteReads | crates/luajit-rs/src/compiler/lex.rs:395-431 | A text in brackets of a level, on a line of its own, is read back if and only if it has no carriage return, no closing bracket of the level starts in it (not even one completed by the end), and the lines do not run out. |
| LongBrackets.EveryText | crates/luajit-rs/src/compiler/lex.rs:385-431 | Every text without carriage returns is read back at a level above its longest run of equal signs. |
| DumpRoundTrip.RoundTrips | crates/luajit-rs/src/compiler/undump.rs:71-171 | Undumping a dumped prototype, in any interner, gives the same prototype, at any depth, if and only if its numbers and lengths fit their fields, it has one line for each instruction, and no table constant has contents and no C value has bytes. |
| DumpRoundTrip.DumpReads | crates/luajit-rs/src/compiler/undump.rs:154-171 | A dump is read to its last byte; the tables in it come back empty; strings interned before keep their numbers. |
| DumpRoundTrip.ReadFits | crates/luajit-rs/src/compiler/undump.rs:71-152 | Whatever the bytes are, a prototype that was read could have been dumped, with names of upvalues taken as bytes. |
| DumpLayout.FileIs | crates/luajit-rs/src/compiler/dump.rs:37-117 | The file of a function with one of everything, byte by byte: magic number, version and flags; flags, parameters, registers, eight counts and lines; source, instructions, lines, numbers, upvalues and their names; a string, a function, a table and a C value with their tags; every number lowest byte first. |
| DumpLayout.Four | crates/luajit-rs/src/compiler/dump.rs:25-27 | A number of four bytes is written lowest byte first, whatever it is. |
| DumpLayout.HeadOf | crates/luajit-rs/src/compiler/dump.rs:64-77 | The numbers in front of every prototype, in order: flags in two bytes, parameters and registers in one each, the counts and lines in four each, with none for the string slots. |
| DumpLayout.SlotsSkipped | crates/luajit-rs/src/compiler/undump.rs:111-121 | A file of the older form, with any number of string slots of any contents behind the number constants, is read to its last byte and gives the prototype a file without them gives. |
| Dumper.Transfer | crates/luajit-rs/src/compiler/dump.rs:109-117 | The writer and the reader themselves: the prototype arrives the same exactly under that condition. |
| Dumper.Undump | crates/luajit-rs/src/compiler/undump.rs:154-171 | The reader agrees with the format on all bytes: wrong magic, other version, bytes missing, or a prototype. |
| Dumper.Reader.ReadPrototype | crates/luajit-rs/src/compiler/undump.rs:71-152 | The reading loops, the slots of old files and the recursion read what the format says, and stop where it ends. |
| Dumper.Reader.ReadConst | crates/luajit-rs/src/compiler/undump.rs:51-69 | One constant, by its tag. |
| Dumper.Writer.WriteProto | crates/luajit-rs/src/compiler/dump.rs:64-107 | The writing loops append the bytes of the prototype and change nothing before. |
| Dumper.Writer.WriteKgc | crates/luajit-rs/src/compiler/dump.rs:37-62 | One constant is appended; strings by contents. |
| Dumper.Interner.Intern | crates/luajit-rs/src/runtime/string.rs:190-195 | A string that is known keeps its number, a new one gets the next. |
| DeclParser.Parser.DeclDeclarator | crates/luajit-rs/src/ffi/lib.rs:599-668 | Inserting behind one cursor that is set back around groups puts the elements in the order the declarator means, and fails exactly when the grammar does. |
| DeclParser.Parser.ReadSuffixes | crates/luajit-rs/src/ffi/lib.rs:626-668 | Arrays and parameter lists end up in reverse, as the later one is nearer to the base. |
| DeclParser.Parser.DeclIsGroup | crates/luajit-rs/src/ffi/lib.rs:670-678 | A parenthesis opens a group unless a parameter list or the end follows; looking ahead moves nothing. |
| DeclSyntax.ReadDeclarator | crates/luajit-rs/src/ffi/lib.rs:599-668 | Reading a printed declarator, with qualifiers and with groups nested to any depth, gives the elements it was printed from and stops right behind it. |
| CTypes.CTState.BuildType | crates/luajit-rs/src/ffi/lib.rs:571-597 | The stack folds into a table and a type, element by element: each goes to a like entry without qualifiers that is there, or to a new one, and qualifiers are written into that entry. |
| CTypes.MakeBuilds | crates/luajit-rs/src/ffi/lib.rs:571-597 | The type made has the levels of the declarator, with its qualifiers, above the base, whatever the table holds and shares. |
| CTypes.CTState.MakePtrType | crates/luajit-rs/src/ffi/lib.rs:351-368 | The first unqualified pointer to the type, or a new one. |
| CTypes.CTState.MakeArrayType | crates/luajit-rs/src/ffi/lib.rs:765-785 | The first array of that element type and size, or a new one; the size is the product, stopping at the 32-bit maximum. |
| CTypes.CTState.MakeFuncType | crates/luajit-rs/src/ffi/lib.rs:787-818 | Always a new entry. |
| CTypes.QualifierShared | crates/luajit-rs/src/ffi/lib.rs:571-597 | A whole declarator changes an entry that was in the table before if and only if some part of it that ends in a qualified pointer, taken without qualifiers, is the type of that entry. |
| CTypeNames.PrintDecl | crates/luajit-rs/src/ffi/lib.rs:1301-1381 | The walk from a type to its base yields prefixes and suffixes that are the declarator's text, with parentheses around pointers where a suffix follows; nothing for 64 levels or more. |
| CTypeNames.RebuiltSame | crates/luajit-rs/src/ffi/lib.rs:1338-1351 | The counts printed for arrays give the same sizes back exactly if no array of sized elements is empty. |
| CTypeRoundTrip.PrintAndRead | crates/luajit-rs/src/ffi/lib.rs:398-478 | For every type, qualified pointers included: its name prints exactly if it has fewer than 64 levels; it is always read, also where a known name such as `void *` takes the first star of the declarator; and the type read has the same levels, with the same qualifiers, over the same base if and only if the type printed has no empty array of sized elements. Entries that were in the table change in qualifiers only, and not at all if the type has none. |
| CTypeRoundTrip.BuiltinNames | crates/luajit-rs/src/ffi/lib.rs:318-348 | The round trip covers the names the source knows: words and identifiers, and `void *` and `void*` for the pointer to `void`. |
| CTypeRoundTrip.CheckTypeName | crates/luajit-rs/src/ffi/lib.rs:398-478 | A name is accepted exactly if its longest known base is followed by a declarator to the end of the name; table and type are what that declarator makes of the base. |
| CTypeRoundTrip.SplitName | crates/luajit-rs/src/ffi/lib.rs:402-453 | The base is the longest known prefix. |
| StructLayout.Layout | crates/luajit-rs/src/ffi/parser.rs:824-870 | For all field types: each offset is a multiple of the field's alignment, fields are in order without overlap and inside the struct, and the size is a multiple of the largest alignment. |
| StructLayout.AsInC | crates/luajit-rs/src/ffi/parser.rs:837-870 | When sizes are multiples of alignments, rounding before and behind each field gives the layout of section 6.7.2.1 of ISO/IEC 9899:2011. |
| StructLayout.LaidOutAsInC | crates/luajit-rs/src/ffi/parser.rs:770-870 | With alignments that are too small, as array types have them, the layout is that of C if and only if, for each field, what C has placed before it, rounded to the alignment the field has here, is a multiple of its right alignment, and so for the end and the largest alignment: a condition on the declaration and the rule of C alone. |
| StructLayout.ArraysAsInC | crates/luajit-rs/src/ffi/parser.rs:770-870 | Where only arrays lack their alignment, the layout is that of C if and only if C comes to each array at a multiple of its right alignment without padding, and the end, rounded to the largest alignment that is left, is a multiple of the right one. |
| StructLayout.ArrayMisplaced | crates/luajit-rs/src/ffi/parser.rs:770-792 | In `struct { char c; int a[2]; }` the array is at 1, and in C at 4. |
| StructParser.UnionLayout | crates/luajit-rs/src/ffi/parser.rs:837-870 | All fields of a union are inside it; its size is that of the largest, rounded to the largest alignment. |
| StructParser.RefusedWhen | crates/luajit-rs/src/ffi/parser.rs:681-690 | The body is accepted if and only if it has at most 10000 fields and an array of unknown length is the last field, and not in a union. |
| StructParser.TableAsInC | crates/luajit-rs/src/ffi/parser.rs:824-870 | In every table the parser can make, sizes are multiples of alignments, so the second rounding never matters. |
| StructParser.CTab.ParseBody | crates/luajit-rs/src/ffi/parser.rs:671-922 | The table gets one entry for each field, with its type and offset, linked in order, new array types where needed, and the struct's entry with first field, alignment, flags and size, in place of a forward declaration if there is one. |
| StructParser.CTab.ParseFields | crates/luajit-rs/src/ffi/parser.rs:681-870 | The running size, the largest alignment and the field entries agree with the layout. |
| StructParser.CTab.FieldType | crates/luajit-rs/src/ffi/parser.rs:768-792 | An array type that is in the table is used again. |
| StructParser.CTab.LinkFields | crates/luajit-rs/src/ffi/parser.rs:875-879 | Each field leads to the next and the last to none; no other entry changes. |
| StructParser.CTab.FieldList | crates/luajit-rs/src/ffi/lib.rs:996-1005 | The walk along the chain finds all fields, in order, and ends. |
| StructParser.Declare | crates/luajit-rs/src/ffi/parser.rs:641-930 | Declaring a struct and walking its fields gives the types and offsets of the layout. |
| IrBuffer.IrBuf.Find | crates/luajit-rs/src/jit/ir.rs:677-713 | The search along a chain finds a constant exactly if it is interned, and ends. |
| IrBuffer.IrBuf.KNum | crates/luajit-rs/src/jit/ir.rs:695-721 | Interning the same bits gives the same reference, and no constant is stored twice. |
| IrBuffer.IrBuf.KGc | crates/luajit-rs/src/jit/ir.rs:734-749 | The same for objects, by value alone. |
| IrBuffer.IrBuf.EmitIns | crates/luajit-rs/src/jit/ir.rs:751-764 | The instruction is appended and heads its chain. |
| IrBuffer.IrBuf.Rollback | crates/luajit-rs/src/jit/ir.rs:782-789 | Whatever was emitted and interned since, the instructions and all chains are those of the shorter buffer, and every constant is kept. |
| IrBuffer.WalkVisitsAll | crates/luajit-rs/src/jit/ir.rs:670-749 | Following a chain of constants visits the members of its opcode, newest first, and ends. |
| IrBuffer.MembersExact | crates/luajit-rs/src/jit/ir.rs:670-749 | Those are all constants of the opcode, each once, in the reverse order of creation. |
| IrBuffer.InsWalkVisitsAll | crates/luajit-rs/src/jit/ir.rs:751-789 | The same for instructions. |
| IrBuffer.InsMembersExact | crates/luajit-rs/src/jit/ir.rs:751-789 | Those are all instructions of the opcode, each once, newest first. |
| TraceExec.FirstExit | crates/luajit-rs/src/jit/exec.rs:318-327 | Whatever stack a recorded trace is entered with: if a guard is the first that fails, the trace leaves through the snapshot that covers it, which is at or before the guard with the next one behind it, and the interpreter, after exactly the steps that snapshot stands for, is at the snapshot's place with the same slots below its count. |
| TraceExec.Transparent | crates/luajit-rs/src/jit/exec.rs:288-788 | For any number of passes: the executor goes round a number of times and then leaves at the first guard that fails, or is still going round; the interpreter is where it is after exactly the steps of that many full passes and of the snapshot left by, with the same slots below its count. |
| TraceExec.RecordTrace | crates/luajit-rs/src/jit/record.rs:2943-3647 | Recording a loop while it runs: a trace comes out only when the interpreter is back at the loop, the recorded run passes all its guards, and its last snapshot is as many steps from the head as the interpreter took; the trace has the properties above. For a loop that keeps to the compiler's convention on registers in use, a condition on the bytecode alone, a trace does come out at the first time the interpreter is back, if all instructions before are in the range and recordable, in fuel, and within the limits, and it holds over many passes. |
| TraceExec.RunIr | crates/luajit-rs/src/jit/exec.rs:288-788 | The executor's loop with its snapshot cursor leaves as the trace means, which the two rows above say in terms of guards, snapshots and the interpreter. |
| WhileLoop.RecordWhile | crates/luajit-rs/src/jit/record.rs:774-832 | The loop `while x < 3 do x = x + 1 end`, recorded from any `x` with `x + 1 < 3`: a closed trace comes out, whose last snapshot is five steps from its head. |
| WhileLoop.WhileCloses | crates/luajit-rs/src/jit/record.rs:2943-3647 | That loop meets the condition under which a trace comes out, and keeps to the convention. |
| TraceExec.RestoreSnapshot | crates/luajit-rs/src/jit/exec.rs:853-902 | The entries are written back and no other slot changes. |
| Snapshots.RestoreLooks | crates/luajit-rs/src/jit/record.rs:315-346 | Restoring a snapshot gives the recorder's view of every slot below its count, also of those it leaves out, and changes nothing above. |
| TraceRecorder.Recorder.RecordIns | crates/luajit-rs/src/jit/record.rs:2943-3647 | One recorded instruction: the recorder's view follows the interpreter, all exits taken so far stay right, and new guards leave through a snapshot that describes the other branch. The outcome is exact: left if outside the range, refused if the instruction or the types of its operands are not recorded, full if the buffer is over a limit afterwards, the outcome of the loop at a loop, and otherwise recorded. |
| TraceRecorder.Recorder.SnapAdd | crates/luajit-rs/src/jit/record.rs:369-391 | A new snapshot, or one in place of the last if no guard came between; positions stay increasing, ranges stay adjacent, and snapshot 0 is never replaced. |
| TraceRecorder.Recorder.CompPrep | crates/luajit-rs/src/jit/record.rs:859-867 | The snapshot before a comparison is never snapshot 0, whose position must not change. |
| TraceRecorder.Recorder.CompFixup | crates/luajit-rs/src/jit/record.rs:871-881 | Only the last snapshot moves, to the branch not taken, and the registers in use are cut to the jump's base. |
| TraceRecorder.Recorder.Branch | crates/luajit-rs/src/jit/record.rs:3064-3084 | The direction computed from the opcode's parity is that of the interpreter, and the guard passes exactly on it. |
| TraceRecorder.Recorder.Getslot | crates/luajit-rs/src/jit/record.rs:307-313 | A register's value with its type, loaded at most once. |
| TraceRecorder.Recorder.RecLoop | crates/luajit-rs/src/jit/record.rs:774-832 | The trace closes exactly at its own loop; another loop is refused as inner if it has a back edge and has not repeatedly failed to go round, refused if unrollings are used up or the last inner loop was entered more than 24 instructions before, and entered otherwise. |
| CopyTests.CopyThenExit | crates/luajit-rs/src/jit/record.rs:3085-3096 | On the recorder, after a copying test: leaving at the next snapshot keeps the copied register if and only if it was in use and lies below the jump's base, or the run has not changed it. |
| CopyTests.CopyLost | crates/luajit-rs/src/jit/record.rs:3085-3096 | A recording of `local x = a or b` in which the copy reads nil behind the exit instead of true. |
| Frames.FrameRecorder.RecCall | crates/luajit-rs/src/jit/record.rs:1203-1306 | An inlined call appends a frame with its caller, callee, base and wanted results, and flags exactly the link slots of pending frames. Unless the called function is a constant, the trace gets a guard that the register's value is the function recorded. In the new frame the parameters hold the arguments, nil where there are fewer, and all slots above are empty. It fails exactly if the callee varies in its arguments or does not fit. |
| Frames.FrameRecorder.RecCallT | crates/luajit-rs/src/jit/record.rs:1362-1458 | A tail call replaces the callee of the innermost frame and keeps its return; the guard on the callee and the slots of the frame are as for a call, with the arguments moved down. |
| Frames.CalleeIs | crates/luajit-rs/src/jit/record.rs:1248-1256 | On every run that passes the guards of the buffer after such a call, the called register's value was the function whose body was inlined. |
| Frames.FrameRecorder.RecRet | crates/luajit-rs/src/jit/record.rs:1460-1498 | A return undoes the innermost call: base, function and registers in use of the caller; the slots from the called function on hold the results the caller wants, nil where there are fewer, and all below are as before; it fails exactly with no frame to return to. |
| FrameReplay.DecodesTo | crates/luajit-rs/src/jit/record.rs:315-346 | Decoding a snapshot's links gives exactly the pending frames below its count. |
| SideTrace.StartSide | crates/luajit-rs/src/jit/record.rs:413-518 | Starting a side trace at an exit rebuilds the frame stack, bases and slot views of the parent, for any nesting of inlined calls; it succeeds if and only if the frame fits the slot map. |
| SideTrace.Replay | crates/luajit-rs/src/jit/record.rs:413-518 | Replaying a snapshot succeeds exactly if its links decode, its constants can be interned and the frame fits; each reference is taken over once and shared. |
| SideTrace.RebuildFrame | crates/luajit-rs/src/jit/record.rs:465-510 | One link decodes to its frame, or is refused. |
| SideTrace.ReplayConst | crates/luajit-rs/src/jit/record.rs:394-411 | A constant of the parent is interned anew with its value. |
| SideTrace.SideViews | crates/luajit-rs/src/jit/record.rs:413-518 | Entered with what the parent's exit restored, the side trace sees every slot as the parent left it. |
| Penalties.Eighth | crates/luajit-rs/src/jit/trace.rs:669-696 | While its slot is not taken, a start instruction is given up at exactly its eighth failure, whatever the noise. |
| Penalties.Survives | crates/luajit-rs/src/jit/trace.rs:669-696 | A new entry stays until 64 others have been inserted, and is gone then. |
| Penalties.RunWf | crates/luajit-rs/src/jit/trace.rs:669-696 | After any failures, stored penalties are in 72..6000 and no address is in the cache twice. |
| Penalties.PenaltyCache.Bump | crates/luajit-rs/src/jit/trace.rs:669-696 | The cache is updated in place, with no penalty lost to 16 bits. |
| Registry.LinkedOnce | crates/luajit-rs/src/jit/trace.rs:590-617 | No two exits lead to the same side trace. |
| Registry.Rooted | crates/luajit-rs/src/jit/trace.rs:590-617 | From any trace, going to parents ends at the root of its tree. |
| Registry.RootAdded | crates/luajit-rs/src/jit/trace.rs:571-589 | A new root trace keeps the trees right. |
| Registry.SideAdded | crates/luajit-rs/src/jit/trace.rs:590-617 | A new side trace keeps the trees right: children counted and at most the limit, one link more and one side trace more. |
| Registry.ExitCounted | crates/luajit-rs/src/jit/exec.rs:258-272 | Counting an exit keeps the trees right; the count never wraps. |
| TraceLife.Transparent | crates/luajit-rs/src/jit/trace.rs:704-725 | In a reachable state, of every instruction that is not stale: taking the patches back gives the bytecode as compiled, and an entry names a live root trace that starts there. A stale entry names none, or a trace that starts elsewhere. |
| TraceLife.Jit.RunAll | crates/luajit-rs/src/jit/trace.rs:34-89 | After any sequence of hot counters, recordings, failures, exits, flushes and drops, up to where the program stops: each event has done what the rows below say of it; taking the patches back gives the bytecode as compiled, and an entry names a live root trace, unless it is stale; no entry is stale if and only if every drop found no entry in the bytecode, so never without a drop; each root's children are counted and within the limit, linked exits equal side traces, and without a full flush an instruction given up never counts again. It stops only at the end of a side trace whose parent was flushed away meanwhile. |
| TraceLife.Jit.TraceStart | crates/luajit-rs/src/jit/trace.rs:93-288 | A root recording starts exactly if the function is still compiled, the instruction is one that is recorded and has no root trace, a number is free and the recorder is set up; a side recording exactly if the function is still compiled, a number is free, the exit is not hopeless and the recorder is set up; and what either may change. |
| TraceLife.Jit.TraceHot | crates/luajit-rs/src/jit/trace.rs:34-54 | Nothing happens while recording; a function not to be compiled is un-counted; otherwise it says exactly when recording starts. |
| TraceLife.Jit.TraceHotSide | crates/luajit-rs/src/jit/trace.rs:56-89 | No recording for an exit that is hopeless, setting one up never gives an exit up, and it says exactly when recording starts. |
| TraceLife.Jit.TraceFindfree | crates/luajit-rs/src/jit/trace.rs:290-303 | The lowest free number, or none if all below the limit are used. |
| TraceLife.Jit.FindRootTrace | crates/luajit-rs/src/jit/mod.rs:521-527 | Finds a root trace at an address exactly if there is one. |
| TraceLife.Jit.TraceStop | crates/luajit-rs/src/jit/trace.rs:425-619 | The finished trace is stored, linked to the trace of the loop it stopped at, and its start patched, or its parent's exit linked and the root's children counted; nothing else changes. It fails exactly for a side trace whose parent is gone. |
| TraceLife.Jit.TraceAbort | crates/luajit-rs/src/jit/trace.rs:627-663 | Which failures are penalized, which disable a function, and what is patched. |
| TraceLife.Jit.PenaltyPc | crates/luajit-rs/src/jit/trace.rs:669-696 | The cache and the bytecode afterwards: an instruction that gets hot still counts exactly if it is not given up. (A vararg function header would count on, but never gets here.) |
| TraceLife.Jit.TraceFlushAll | crates/luajit-rs/src/jit/trace.rs:738-759 | No entry is left but stale ones, and all traces are dropped; an instruction is as compiled exactly where the registry had a root trace for it or it is the head of a loop whose entry is not stale, and unchanged elsewhere; also while a side trace is recorded. |
| TraceLife.Jit.TraceDrop | crates/luajit-rs/src/stdlib/jit.rs:23-31 | All traces are dropped and no instruction is changed: every entry becomes stale. Afterwards every entry names a live root trace if and only if there was no entry in the bytecode. |
| TraceLife.Jit.TraceFlushBlacklist | crates/luajit-rs/src/jit/trace.rs:761-787 | The start of the trace's root is reverted and un-counted; the registry keeps the trace. |
| TraceLife.Jit.TakeExit | crates/luajit-rs/src/jit/exec.rs:210-272 | A linked exit goes on in its side trace, and the end of a trace linked to a root trace in that one, uncounted; any other is counted up to the maximum, and disables the trace behind it beyond the window. A side recording starts if and only if nothing is being recorded, the exit is not linked and not done, the new count is in the window, the function is still compiled, a number is free, the exit is not hopeless, and the recorder is set up; while recording, the recorder's state stays as it is. |
| TraceLife.UncountedThenFlushed | crates/luajit-rs/src/jit/trace.rs:738-759 | A full flush makes a disabled instruction count again if and only if the registry still holds a root trace that starts there. |
| TraceLife.StaleEntry | crates/luajit-rs/src/jit/exec.rs:105-110 | Two loops: the first is compiled, the traces are dropped, the second is compiled. The first one's entry names no trace in between, and the second loop's trace afterwards. |

## Findings

Where the code does less than its comments or tests suggest; each is stated by the
member named.

- **A copied value can be lost at a side exit** (`CopyTests.CopyLost`, exact condition
  in `CopyTests.CopyThenExit`). The recorder stores the copy of `ISTC` or `ISFC` in
  its slot map without raising the number of registers in use, and the branch then
  cuts that number to the jump's base. A snapshot taken next leaves the register
  out, and the interpreter finds there what it held when the trace was entered.
- **A side trace may not fit where its root did** (`SideTrace.StartSide`). The check
  before recording a root trace compares the frame size plus one; the replay of a
  snapshot compares it on top of the base slot 2. A root of frame size 247 or 248
  passes the first, and all side traces from exits in its own frame fail the second.
- **Dropping the traces leaves their entries** (`TraceLife.StaleEntry`, exact condition in
  `TraceLife.Jit.TraceDrop`). `jit.flush` and setting a hook empty the registry and
  do not take the patches back. A compiled loop that runs next finds no trace under
  its number (`jit/exec.rs:105-110` stops the program), or, once the number has been
  given out again, the trace of another loop. It goes well if and only if there was
  no entry in the bytecode.
- **A full flush can take the parent of a side trace that is being recorded**
  (`TraceLife.Jit.TraceStop`). The handler of a compiled numeric loop
  (`vm/mod.rs:2582-2611`) flushes after a change of metatables without a look at the
  recorder, which goes on past a compiled loop that is left; completing the side
  trace then stops the program, as its parent is gone.
- **A full flush forgets that an instruction was disabled** (`TraceLife.UncountedThenFlushed`),
  exactly while its root trace is still in the registry.
- **Three branches are never taken** (`TraceLife.Jit.TraceHotSide`, `TraceLife.Jit.TraceAbort`,
  `TraceLife.Jit.PenaltyPc`). Setting up a side trace cannot give up its exit, because
  the caller has checked the same bounds before; blacklisting never meets a compiled
  loop, whose branch would leave the trace number in operand D; and it never meets a
  vararg function header, which it would leave counting, because the interpreter
  counts only headers of functions with a fixed number of arguments
  (`vm/mod.rs:3325`).
- **A qualifier is written into a shared entry** (`CTypes.QualifierShared`, an exact
  condition for whole declarators). `T *const` sets its flag in the entry of the
  pointer to `T`, if there is one, so that all other uses of that pointer type
  change with it: after the name `void *const`, the name `void *` is that of a
  constant pointer.
- **An empty array does not survive its name** (`CTypeRoundTrip.PrintAndRead`): its count is
  printed as zero and read as one. Types of 64 and more levels have no name.
- **Array fields are not aligned** (`StructLayout.ArrayMisplaced`, exact condition in
  `StructLayout.ArraysAsInC`). Array types are made without an alignment, and the
  field is placed with alignment 1: it is where C puts it only if the fields before
  it happen to end at a multiple of its right alignment.
- **Dumps lose tables** (`DumpRoundTrip.RoundTrips`). A template table or a C value
  comes back empty, and a name of an upvalue with 65536 bytes or more is cut in
  its length field but not in its bytes.

## Left out

- Arithmetic, concatenation, calls, tables, varargs and functions in the expression compiler; constant folding; C numbers. Strings are the only collectable constants there. Constants beyond 65535 are refused only at the end of a function, which is not modelled.
- The branch of `bcemit_jmp` for upvalue-closing instructions, and the limit on syntax levels in the expression compiler (`Precedence` has it).
- Tokens and names as text: `Precedence` takes an operand with its suffixes as one token, leaves out `?` at the end of an expression, and does not tell `!` from `not`; a call or a short function where an operand starts is `Unexpected`.
- Labels, gotos and debug names on the variable stack; the check for constant variables; lookup of locals still pending; marking of scopes whose variables are captured. Upvalues keep the number of the variable they stand for in place of its name, for the statements only.
- Local variable names and resolved string slots of a prototype in dumps. Reading past the end, an unknown tag and a bad length stop the program in the source; the model says `CutShort`. Numbers are their 64-bit patterns, and names of upvalues are bytes. The interner is a list and a map here, not an open-addressed table, and strings are never collected while reading.
- Parameter lists of function types other than `()` and `(void)`, bit-fields, nested declarations inside a struct body (their types are in the table before), names and tags of fields and structs. Type numbers are below 65536, as the packed entries need; an entry's packed word is its decoded fields, and alignments are stored as powers of two. Sizes that exceed 32 bits are cut as in the source; sums are exact, as the source's 64 bits do not overflow with that many fields.
- String comparison, mixed integer and number instructions, metamethods, tables, upvalues, library functions and string buffers in traces; folding, common subexpressions, unrolling with PHIs, sinking, and the machine-code back ends. Loops close by re-running the trace from its head. What the recorder asks the runtime (`haseq`, `innerleft`) is a parameter. The limit on the number of snapshots is not modelled.
- TraceExec.RecordTrace: recording stops with the outcome of its `fuel`, and where an instruction would store above a gap in the registers in use. That a trace comes out is said of loops that keep to the convention and have no other loop inside, with room for six instructions and one constant for each step.
- Recursion and loops inside inlined calls, varargs in calls, and calls of anything but Lua functions. The heap is a function from addresses to functions.
- Hot counters themselves, despecialisation of `ITERN`, the flag that keeps a function's inner loops from being compiled, and garbage collection of traces. A drop happens only while no recording is going on: the recorder gives up at the call that does it. The recorder's own choice of `link` is a parameter: the instruction a trace stops at. Limits on traces and side traces are below 65536, and those on hot exits below 255, as parameters of the object.
- Exec.RunEnds: says where runs of emitted code can end, as a step for the rows above.
- NameScopes.Scopes.VarLookup: locals that are declared but not active yet are not searched.
- NameScopes.Scopes.VarNew: a constant variable declared again is not refused.
- DumpRoundTrip.ReadFits: the source replaces invalid UTF-8 in names of upvalues (`undump.rs:129`), which can make a name longer than its length field holds.
- DeclParser.Parser.DeclDeclarator: of parameter lists only `()` and `(void)`.
- DeclParser.Parser.ReadSuffixes: of parameter lists only `()` and `(void)`.
- CTypes.CTState.MakeFuncType: no entries for parameters.
- CTypeRoundTrip.CheckTypeName: qualifiers around the base name, `struct`, `union` and `enum` tags, and names that are inline declarations.
- CTypeRoundTrip.SplitName: a prefix is compared as it is written, without the removal of qualifiers and the look at tags.
- StructParser.CTab.ParseBody: bit-fields, declarations inside the body, names of fields.
- StructParser.CTab.ParseFields: bit-fields, declarations inside the body.
- TraceExec.RunIr: the operations of `TraceIr`, and the loop edge that goes back to the head of the trace.
- TraceRecorder.Recorder.RecordIns: the instructions listed above, at which the source records further traces and the model stops with NYIBC.
- Frames.FrameRecorder.RecCallT: tail calls of C functions.
