# mini-pogo toolchain, modelled in Dafny

mini-pogo is a small concurrent language with tasks, `spawn`, `while`, `if`,
integer variables `A`..`Z` and `print_int`/`print_char`. Its toolchain has
these parts:

- a lexer turns the source text into lexical units;
- a recursive-descent parser builds a parse tree from those units;
- a code generator walks the tree and writes stack-machine instructions into
  a static code buffer, backpatching forward jumps and spawns;
- a binary header (module name, labels, code size) is written before the
  code in a module file, and read back by the loader;
- an interpreter runs a task of a loaded module, one opcode per step;
- two chained hash tables, one for labels and one for string constants,
  share the same character-sum hash.

The Dafny project models these parts, file by file:

| Dafny file | module | C source |
|---|---|---|
| common.dfy | `Common` | fixed-width integers, `Option` |
| hashing.dfy | `Hashing` | the shared bucket hash (`symtab_hash`, `strtab_hash`, `compile_hash`) |
| symbol_table.dfy | `SymbolTable` | src/symbol-table.c |
| string_table.dfy | `StringTable` | src/string-table.c |
| byte_file.dfy | `ByteFile` | the `fread`/`fseek`/`rewind` calls of the loader |
| binary_header.dfy | `BinaryHeader` | src/binary-header.c |
| module.dfy | `Modules` | src/module.c |
| instruction.dfy | `Instructions` | src/instruction.h |
| compile.dfy | `CodeGen` | src/compile.c |
| exec.dfy | `Exec` | src/exec.c |
| ast.dfy | `Ast` | the parse tree of src/parse.h |
| lex.dfy | `Lexer` | src/lex.c |
| parse.dfy | `Parser` | src/parse.c |
| parse_facts.dfy | `ParserFacts` | properties of the grammar of src/parse.c |

The modelling follows the shape of the C code:

- **Imperative code becomes classes and methods.** The hash tables, the
  header buffer, the code generator's globals, the task record, the lexer's
  cursor and the parser's current unit are classes. Their fields are what
  the C code updates in place. Their methods have the C loops, with
  invariants.
- **Each method is proved against a specification function.** For example:
  - `Write` produces `Encode(h)`;
  - `Read` returns `Decode(file)`;
  - `Compile` leaves the state `Emit(tree, old state)`;
  - `RunTask` returns `Run(...)`;
  - `Scan` produces `NextUnit(...)`;
  - every `Parse*` method agrees with its grammar function.
- **The properties are lemmas about those functions.** They include:
  - the header round trip;
  - the backpatch-site invariant of the code generator;
  - the layout of `if`/`while`/`spawn` code;
  - the step rules of every opcode;
  - the keyword table being sorted;
  - the left associativity and negation rules of the parser.
- **Undefined behaviour is a precondition or an outcome.** Where the C code
  can read out of bounds, overflow a signed integer or divide by zero, the
  model either makes that a precondition (for the interpreter's steps, and
  for the code generator's unchecked `g_code[g_ip++]` writes, which
  `CodeGen.Room` keeps inside `MAX_CODE_SIZE`) or an explicit `Undefined`
  outcome (for the header reader and the run loop).
  The one exception is the task variables, which C indexes out of bounds
  on every access; see `Exec.Runtime.DefinedNow` under "Left out".

## Model

| member | source | states |
|---|---|---|
| Common.U32ToI32 | src/instruction.h:20 | reading the operand word as `int32_t` gives a value congruent to the word modulo 2^32 |
| Common.I32ToU32 | src/instruction.h:20 | storing an `int32_t` into the operand word and reading it back gives the same value |
| Hashing.SignedChar | src/symbol-table.c:20 | a `char` added to the sum contributes a value in -128..127 |
| Hashing.Hash | src/symbol-table.c:15-23 | the loop computes the 32-bit wrapping char sum modulo 4999, so the bucket index is below the table size |
| SymbolTable.Label.constructor | src/symbol-table.c:44-60 | a new label has its name, address and kind, no address set and no backpatch sites |
| SymbolTable.Label.AddBackpatch | src/symbol-table.c:89-95 | the site is prepended to the label's backpatch list and nothing else changes |
| SymbolTable.Find | src/symbol-table.c:32-42 | the chain walk finds a label carrying the name, and finds none exactly when no label of the chain has it |
| SymbolTable.FindPrepend | src/symbol-table.c:49-57 | after prepending, the new label hides older labels of the same name and every other name is found as before |
| SymbolTable.ChainedEmpty | src/symbol-table.c:25-30 | empty buckets represent the empty table |
| SymbolTable.ChainedPrepend | src/symbol-table.c:49-57 | prepending a label to the bucket of its hash keeps every bucket chained by hash and maps the name to the new label |
| SymbolTable.Table.constructor | src/symbol-table.c:12-13 | the zero-initialised table is empty with a zero counter |
| SymbolTable.Table.Init | src/symbol-table.c:25-30 | every bucket is empty, the table is empty and the counter is reset |
| SymbolTable.Table.Lookup | src/symbol-table.c:32-42 | returns the label the table maps the name to, which lies in the name's bucket; null exactly when no label of that bucket has the name |
| SymbolTable.Table.AddLabel | src/symbol-table.c:44-60 | a fresh label, never marked as having an address (the `addr_set` argument is not stored), is prepended to its bucket; the name now maps to it; the 32-bit counter is incremented; the other buckets are unchanged |
| SymbolTable.Table.AddTaskLabel | src/symbol-table.c:62-69 | adds a task label with the given address |
| SymbolTable.Table.AddForwardRefTaskLabel | src/symbol-table.c:71-78 | adds a task label at address 0 |
| SymbolTable.Table.AddJumpLabel | src/symbol-table.c:80-87 | adds a non-task label with the given address |
| StringTable.FindText | src/string-table.c:31-41 | the chain walk finds an entry with the text, and finds none exactly when no entry of the chain has it |
| StringTable.FindTextPrepend | src/string-table.c:48-53 | after prepending, the new entry is found for its text and every other text is found as before |
| StringTable.ChainedEmpty | src/string-table.c:14-19 | empty buckets represent the empty table |
| StringTable.ChainedAdd | src/string-table.c:48-53 | prepending an entry for a new text keeps every bucket chained by hash and adds the text with its index |
| StringTable.NumberedAdd | src/string-table.c:51 | numbering a new text with the current counter keeps the insertion order and the numbering consistent |
| StringTable.IndicesDense | src/string-table.c:16 | the indices handed out are exactly 0..n-1, distinct, in insertion order (below 2^32 texts) |
| StringTable.Table.constructor | src/string-table.c:11-12 | the zero-initialised table is empty with a zero counter |
| StringTable.Table.Init | src/string-table.c:14-19 | every bucket is empty, the table is empty and the counter is reset |
| StringTable.Table.Lookup | src/string-table.c:31-41 | returns the entry of the text with its index when interned, none otherwise |
| StringTable.Table.AddString | src/string-table.c:43-56 | an interned text returns its existing entry and nothing changes; a new text gets the old counter as its index, is appended to the order and the counter is incremented |
| ByteFile.File.constructor | src/module.c:20 | a file just opened is read from position 0 |
| ByteFile.File.Available | src/binary-header.c:110-114 | `fread` delivers at most n bytes, all n exactly when they lie inside the file, and they are the file's bytes at the position |
| ByteFile.File.Read | src/module.c:24-27 | reads what `Available` describes and advances the position by the count read |
| ByteFile.File.Seek | src/module.c:24 | moves the position to the given offset |
| ByteFile.File.Rewind | src/binary-header.c:144 | moves the position back to 0 |
| Instructions.WithLowByte | src/instruction.h:17-35 | storing an 8-bit union member replaces the low byte of the operand word and keeps the other three bytes |
| BinaryHeader.CStr | src/binary-header.c:96-102 | the C string in a buffer is its prefix up to the first NUL |
| BinaryHeader.CStrTerminated | src/binary-header.c:99-100 | bytes copied before a NUL read back as the same C string |
| BinaryHeader.LE32 | src/binary-header.c:40-44 | a word is stored as four bytes |
| BinaryHeader.LE32RoundTrip | src/binary-header.c:72-76 | reading back the four stored bytes gives the word |
| BinaryHeader.U32AtEncoded | src/binary-header.c:72-76 | a word stored at an offset reads back at that offset whatever surrounds it |
| BinaryHeader.Counted | src/binary-header.c:52-59 | a counted string takes 4 bytes plus its length |
| BinaryHeader.EncodeLabel | src/binary-header.c:177-182 | one label entry takes 9 bytes plus its name's length |
| BinaryHeader.EncodeLabels | src/binary-header.c:177-182 | the label list takes `LabelsSize` bytes |
| BinaryHeader.LabelsSizeAppend | src/binary-header.c:177-182 | one more label adds 9 bytes plus its name's length |
| BinaryHeader.EncodeLabelsAppend | src/binary-header.c:177-182 | the label list is written entry after entry |
| BinaryHeader.EncodeLayout | src/binary-header.c:169-185 | the written header has size 16 + name + labels; its four words are the header size, the label count, the code size and the name length; the name follows at offset 16 and the label list after it |
| BinaryHeader.EncodeWords | src/binary-header.c:31-34 | the three header words and the name length lie at offsets 0, 4, 8 and 12 |
| BinaryHeader.EncodeFields | src/binary-header.c:128-133 | the label list starts right after the module name |
| BinaryHeader.Zeros | src/binary-header.c:122-126 | the cleared buffer holds only zero bytes |
| BinaryHeader.Loaded | src/binary-header.c:145 | the buffer after a raw read starts with the bytes read |
| BinaryHeader.LoadedFile | src/binary-header.c:142-145 | a complete raw read of the size word's count of bytes loads the file's prefix, and decoding the file is decoding that buffer |
| BinaryHeader.GetCounted | src/binary-header.c:96-102 | a counted string read at an offset ends 4 + its stored length further on, inside the buffer |
| BinaryHeader.GetCountedFails | src/binary-header.c:96-102 | the read fails exactly where the C code would read past the header buffer or the name buffer |
| BinaryHeader.DecodeLabels | src/binary-header.c:155-163 | after `count` turns the label loop has read `count` labels |
| BinaryHeader.DecodeLabelsStaysFailed | src/binary-header.c:155-163 | once a turn of the label loop fails, every later turn fails |
| BinaryHeader.CountedAt | src/binary-header.c:96-102 | a stored counted string reads back as that string |
| BinaryHeader.DecodeEncodedLabel | src/binary-header.c:157-162 | a stored label entry reads back field by field |
| BinaryHeader.DecodeLabelsSnoc | src/binary-header.c:155-163 | one more successful turn appends its label |
| BinaryHeader.DecodeEncodedPrefix | src/binary-header.c:155-163 | the label loop reads back the first k labels that were written |
| BinaryHeader.DecodeEncodedLabels | src/binary-header.c:155-163 | the label loop reads back every label that was written |
| BinaryHeader.DecodeBufferEncoded | src/binary-header.c:146-163 | a buffer starting with a written header decodes to that header |
| BinaryHeader.RoundTrip | src/binary-header.c:135-167 | reading a file that starts with a written header (size field at least the encoding, at most the buffer, names fitting the buffers) gives back that header |
| BinaryHeader.DecodedSizeIsFirstWord | src/binary-header.c:150 | the decoded header size is the file's first word |
| BinaryHeader.ShortFile | src/binary-header.c:61-70 | a file without a size word ends the process; a file shorter than its size word gives NULL |
| BinaryHeader.HeaderBuffer.constructor | src/binary-header.c:37-38 | the static buffer starts all zero with cursor 0 |
| BinaryHeader.HeaderBuffer.Init | src/binary-header.c:122-126 | the buffer is zeroed and the cursor reset |
| BinaryHeader.HeaderBuffer.AddU32 | src/binary-header.c:40-44 | the word's four bytes are stored at the cursor, which advances by 4; the other bytes are unchanged |
| BinaryHeader.HeaderBuffer.AddU8 | src/binary-header.c:46-50 | the byte is stored at the cursor, which advances by 1; the other bytes are unchanged |
| BinaryHeader.HeaderBuffer.AddCountedString | src/binary-header.c:53-59 | the length word and the chars are stored at the cursor, which advances past them |
| BinaryHeader.HeaderBuffer.CopyChars | src/binary-header.c:57-58 | the chars are copied at the cursor and nothing else changes |
| BinaryHeader.HeaderBuffer.GetU32 | src/binary-header.c:72-76 | returns the word stored at the offset |
| BinaryHeader.HeaderBuffer.GetU8 | src/binary-header.c:78-82 | returns the byte at the offset |
| BinaryHeader.HeaderBuffer.GetLabelCount | src/binary-header.c:84-88 | returns the word at offset 4 |
| BinaryHeader.HeaderBuffer.GetCodeSizeInBytes | src/binary-header.c:90-94 | returns the word at offset 8 |
| BinaryHeader.HeaderBuffer.GetCountedStringSize | src/binary-header.c:104-108 | returns the length word at the offset |
| BinaryHeader.HeaderBuffer.GetLabelListOfs | src/binary-header.c:128-133 | returns 16 plus the module name's length, in 32-bit arithmetic |
| BinaryHeader.HeaderBuffer.GetCountedString | src/binary-header.c:96-102 | returns the stored length; the name buffer holds the chars, then a NUL, then its old contents |
| BinaryHeader.HeaderBuffer.RawRead | src/binary-header.c:110-114 | the bytes `fread` delivers land at the start of the buffer, and the count read is returned |
| BinaryHeader.HeaderBuffer.RawWrite | src/binary-header.c:116-120 | hands back the bytes up to the cursor |
| BinaryHeader.HeaderBuffer.WriteFixed | src/binary-header.c:172-176 | the buffer starts with the three words and the counted module name |
| BinaryHeader.HeaderBuffer.WriteLabel | src/binary-header.c:179-181 | one label entry is appended at the cursor |
| BinaryHeader.HeaderBuffer.WriteNextLabel | src/binary-header.c:177-182 | one turn of the loop extends the written label list by label i |
| BinaryHeader.HeaderBuffer.Write | src/binary-header.c:169-185 | the bytes written are `Encode(h)` |
| BinaryHeader.HeaderBuffer.ReadCounted | src/binary-header.c:96-102 | agrees with `GetCounted` on the buffer |
| BinaryHeader.HeaderBuffer.ReadLabel | src/binary-header.c:157-162 | agrees with one turn of the decoder |
| BinaryHeader.HeaderBuffer.ReadLabels | src/binary-header.c:155-163 | agrees with `DecodeLabels` on the buffer |
| BinaryHeader.HeaderBuffer.DecodeLoaded | src/binary-header.c:146-163 | agrees with `DecodeBuffer` on the buffer |
| BinaryHeader.HeaderBuffer.Read | src/binary-header.c:135-167 | returns `Decode(file)`: a header, NULL, a process exit, or undefined behaviour |
| Modules.ReadModule | src/module.c:16-43 | a module is found exactly when the header decodes and the code block fits in the file, and it holds that header and those code bytes; no header gives NULL; exits and undefined behaviour pass through |
| Modules.Read | src/module.c:16-43 | returns `ReadModule(file)` |
| Modules.RoundTrip | src/module.c:20-27 | a file holding a written header, padding to its size and a code block loads as that header and that code |
| CodeGen.SetOpcode | src/compile.c:76-79 | advances the pointer by one inside the buffer; the code length and the label table are unchanged |
| CodeGen.Store | src/compile.c:224-228 | advances the pointer by one inside the buffer; the code length and the label table are unchanged |
| CodeGen.StoreLow | src/compile.c:212-216 | advances the pointer by one inside the buffer; the code length and the label table are unchanged |
| CodeGen.Patch | src/compile.c:185 | a backpatch keeps the pointer, the label table and the code length |
| CodeGen.SpawnLabels | src/compile.c:138-161 | after a spawn of a name, the table holds the old names and that name |
| CodeGen.SpawnOne | src/compile.c:138-163 | one spawn name advances two slots and writes only the slot at the old pointer |
| CodeGen.EmitSpawn | src/compile.c:119-164 | advances two slots per name, keeps every label, writes only between the old and new pointer |
| CodeGen.Emit | src/compile.c:253-338 | the dispatcher advances by `Size(tree)` and writes only slots between the old and new pointer |
| CodeGen.EmitBinary | src/compile.c:81-86 | advances by the tree's size and writes only between the old and new pointer |
| CodeGen.EmitIf | src/compile.c:166-188 | advances by the tree's size and writes only between the old and new pointer |
| CodeGen.EmitWhile | src/compile.c:190-210 | advances by the tree's size and writes only between the old and new pointer |
| CodeGen.EmitOpt | src/compile.c:255 | a null tree leaves the state unchanged; otherwise as `Emit` |
| CodeGen.EmitSeq | src/compile.c:242-251 | advances by the statements' total size and writes only between the old and new pointer |
| CodeGen.IfJumps | src/compile.c:180-187 | the conditional jump targets the false branch and the jump after the true branch targets the end |
| CodeGen.WhileJumps | src/compile.c:202-209 | the exit jump targets the slot after the loop and the back jump targets the loop top |
| CodeGen.BinaryLayout | src/compile.c:81-86 | the operator is the last slot, after both operands |
| CodeGen.SpawnOperand | src/compile.c:138-162 | a resolved name gives its address; otherwise the operand is 0 and the site is recorded |
| CodeGen.SpawnLayout | src/compile.c:132-163 | spawn code has two slots per name |
| CodeGen.SpawnSlots | src/compile.c:132-163 | every even slot of spawn code holds SPAWN |
| CodeGen.SpawnSlot | src/compile.c:135 | the k-th name's SPAWN lies at 2k and the slot after it is skipped |
| CodeGen.SpawnNamesRecorded | src/compile.c:138-161 | every spawned name ends up in the label table |
| CodeGen.PendingAbove | src/compile.c:147 | writing only at or above the pointer keeps the recorded backpatch sites valid |
| CodeGen.PendingPatch | src/compile.c:185-187 | patching a jump keeps the recorded sites valid |
| CodeGen.PendingSpawn | src/compile.c:147-159 | one spawn name keeps every recorded site below the pointer and holding SPAWN |
| CodeGen.PendingSpawns | src/compile.c:132-163 | a whole spawn statement keeps the sites valid |
| CodeGen.PendingEmit | src/compile.c:253-338 | the dispatcher keeps every recorded backpatch site below the pointer and holding SPAWN |
| CodeGen.PendingBinary | src/compile.c:81-86 | a binary operator keeps the sites valid |
| CodeGen.PendingIf | src/compile.c:166-188 | an `if` keeps the sites valid |
| CodeGen.PendingWhile | src/compile.c:190-210 | a `while` keeps the sites valid |
| CodeGen.SizeSeqAppend | src/compile.c:242-251 | the size of a statement list is additive |
| CodeGen.EmitSeqAppend | src/compile.c:242-251 | compiling two lists in a row is compiling their concatenation |
| CodeGen.AssignIgnoresExpression | src/compile.c:265-267 | an assignment's code does not depend on its right-hand side: one POP_INT with the variable in the low byte |
| CodeGen.Compiler.constructor | src/compile.c:16-17 | every slot zero, pointer 0, label table empty |
| CodeGen.Compiler.LookupLabel | src/compile.c:49-59 | returns the label recorded for the name |
| CodeGen.Compiler.AddLabel | src/compile.c:61-66 | the name now maps to the new label; the code is unchanged |
| CodeGen.Compiler.AddBackpatch | src/compile.c:68-74 | the site is prepended to the label's list |
| CodeGen.Compiler.EmitOpcode | src/compile.c:85 | the state becomes `SetOpcode` of the old state |
| CodeGen.Compiler.GenEndTask | src/compile.c:76-79 | END_TASK is written and the pointer advances |
| CodeGen.Compiler.GenBeginSpawn | src/compile.c:88-91 | BEGIN_SPAWN is written and the pointer advances |
| CodeGen.Compiler.GenSpawn | src/compile.c:93-97 | SPAWN with the address word is written |
| CodeGen.Compiler.GenEndSpawn | src/compile.c:99-102 | END_SPAWN is written |
| CodeGen.Compiler.GenPrintInt | src/compile.c:104-107 | PRINT_INT is written |
| CodeGen.Compiler.GenPrintChar | src/compile.c:109-112 | PRINT_CHAR is written and the character is dropped |
| CodeGen.Compiler.GenPushVar | src/compile.c:114-117 | PUSH_VAR is written and the variable name is dropped |
| CodeGen.Compiler.OpPopInt | src/compile.c:212-216 | POP_INT with the name in the operand's low byte |
| CodeGen.Compiler.OpPrintChar | src/compile.c:218-222 | PRINT_CHAR with the char in the operand's low byte |
| CodeGen.Compiler.OpPushConstInt | src/compile.c:224-228 | PUSH_CONST_INT with the constant as the operand word |
| CodeGen.Compiler.PatchJump | src/compile.c:185 | the state becomes `Patch` of the old state |
| CodeGen.Compiler.ResolveTask | src/compile.c:138-161 | the label table becomes `SpawnLabels` and the address is the operand |
| CodeGen.Compiler.SpawnName | src/compile.c:132-163 | one loop turn does `SpawnOne` |
| CodeGen.Compiler.CompileSpawn | src/compile.c:119-164 | the state becomes `EmitSpawn` of the names |
| CodeGen.Compiler.CompileBinaryOp | src/compile.c:81-86 | the state becomes `EmitBinary` |
| CodeGen.Compiler.CompileIf | src/compile.c:166-188 | the state becomes `EmitIf` |
| CodeGen.Compiler.CompileWhile | src/compile.c:190-210 | the state becomes `EmitWhile` |
| CodeGen.Compiler.CompilePrintInt | src/compile.c:230-234 | expression then PRINT_INT |
| CodeGen.Compiler.CompileNegate | src/compile.c:236-240 | expression then NEGATE |
| CodeGen.Compiler.Compile | src/compile.c:253-338 | the state becomes `Emit(tree, old state)` |
| CodeGen.Compiler.CompileStatementSequence | src/compile.c:242-251 | the state becomes `EmitSeq` of the statements |
| Exec.ZeroVars | src/exec.c:41-42 | exactly the variables `A`..`Z`, all zero |
| Exec.SplitJoin | src/exec.c:25-27 | splitting a 64-bit pointer into halves and joining them is the identity, and the other way round |
| Exec.TruncDivRem | src/exec.c:168-175 | C's `/` and `%` truncate: `y == x*q + r`, the remainder is smaller than the divisor and has the dividend's sign |
| Exec.I32RoundTrip | src/exec.c:129 | the operand word read as `int32_t` and stored back is unchanged |
| Exec.SpawnPushesPointer | src/exec.c:69-70 | SPAWN pushes the child pointer's low half then its high half, and the two top words join to the pointer |
| Exec.PushPop | src/exec.c:128-138 | PUSH_CONST_INT pushes the constant; POP_INT stores the top into the named variable; PUSH_VAR pushes the variable; each advances by one |
| Exec.BinaryStep | src/exec.c:143-199 | a binary opcode pops x then y and pushes `y op x`, with C's comparison, logical and truncating semantics |
| Exec.UnaryStep | src/exec.c:139-155 | NEGATE and NOT rewrite the top word in place; NOT gives 0 or 1 |
| Exec.JumpStep | src/exec.c:200-214 | JUMP goes to its operand; the conditional jumps pop and jump on zero or non-zero |
| Exec.TestAndJumpStep | src/exec.c:248-265 | a taken TEST_AND_JUMP keeps the tested word; an untaken one drops it and advances |
| Exec.EndTaskAndSleep | src/exec.c:132-134 | END_TASK stops the task without moving the pointer; SLEEP pops and waits the absolute value, then continues |
| Exec.BadExits | src/exec.c:266-268 | OP_BAD ends the run at once, its `OP_BAD` line the last output and the rest of the task unchanged |
| Exec.StepKeepsSane | src/exec.c:115-273 | every step keeps the variable map exactly `A`..`Z` and the stack within its capacity |
| Exec.NewTask | src/exec.c:36-49 | a new task is stopped, with an empty stack, zero variables and no spawned tasks |
| Exec.Runtime.constructor | src/exec.c:33 | the created-task counter starts at 0 |
| Exec.Runtime.CreateTask | src/exec.c:36-49 | the fresh task is `NewTask(ip)` and the 32-bit counter is incremented |
| Exec.Runtime.StepTask | src/exec.c:123-273 | one iteration changes the task as `Step` says, and on OP_BAD records its output line and reports `exit(0)` |
| Exec.Runtime.StepPushPop | src/exec.c:128-138 | agrees with `Step` on PUSH_CONST_INT, POP_INT and PUSH_VAR |
| Exec.Runtime.StepArithmetic | src/exec.c:139-199 | agrees with `Step` on NEGATE, NOT and the binary opcodes |
| Exec.Runtime.StepJump | src/exec.c:200-214 | agrees with `Step` on the jumps |
| Exec.Runtime.StepTestAndJump | src/exec.c:248-265 | agrees with `Step` on the test-and-jumps |
| Exec.Runtime.StepSpawn | src/exec.c:215-226 | agrees with `Step` on BEGIN_SPAWN, SPAWN and END_SPAWN |
| Exec.Runtime.StepPrint | src/exec.c:227-234 | agrees with `Step` on PRINT_INT and PRINT_CHAR |
| Exec.Runtime.StepSleep | src/exec.c:239-247 | agrees with `Step` on SLEEP |
| Exec.Runtime.StepEnd | src/exec.c:266-271 | agrees with `Step` on END_TASK, OP_BAD (its line printed, then exit) and the opcodes without a case |
| Exec.Runtime.AddSpawnTask | src/exec.c:52-71 | the child pointer's halves are pushed, low first; the counter is incremented; nothing else of the parent changes |
| Exec.Runtime.RunTask | src/exec.c:115-275 | the task runs as `Run` from the running state |
| Exec.Runtime.DefinedNow | src/exec.c:125-126 | tells whether the next step has defined behaviour |
| Exec.Task.Snapshot | src/exec.c:115-122 | the task's abstract machine |
| Exec.Task.constructor | src/exec.c:36-46 | empty stack, given pointer, stopped, zero variables, no spawned tasks, no output |
| Exec.Task.Push | src/exec.c:19 | the stack becomes the old stack plus the word |
| Exec.Task.Pop | src/exec.c:20 | returns the top word and removes it |
| Exec.Task.Peek | src/exec.c:21 | returns the top word |
| Exec.Task.Drop | src/exec.c:22 | removes the top word |
| Exec.Task.Negate | src/exec.c:139-140 | the top word is negated in place |
| Exec.Task.Not | src/exec.c:151-153 | the top word becomes 1 if it was 0, else 0 |
| Exec.Task.BinaryOp | src/exec.c:106-112 | the two top words y, x are replaced by `y op x` |
| Exec.Task.RunThenJoin | src/exec.c:95-102 | after the joins, the two words of every spawned task are dropped |
| Lexer.Peeked | src/mini-pogo.c:104-114 | peeking does not move the line or column |
| Lexer.Consumed | src/lex.c:88-101 | consuming advances the input by one char |
| Lexer.ConsumeN | src/lex.c:88-101 | consuming k times advances by k |
| Lexer.ConsumeNSnoc | src/lex.c:88-101 | consuming k+1 times is consuming k times and once more |
| Lexer.RealChar | src/lex.c:88-101 | a char other than EOF lies inside the text |
| Lexer.AfterWhitespace | src/lex.c:103-114 | skipping stops at the first char that is not whitespace and every char skipped is whitespace |
| Lexer.IdentRun | src/lex.c:152-158 | the identifier run lies inside the text |
| Lexer.IdentRunSpec | src/lex.c:152-158 | the run is all letters, digits and `_`, and the char after it is not |
| Lexer.Kept | src/lex.c:153-155 | only the first MAX_STR-1 chars of a name are kept |
| Lexer.StrLessIrreflexive | src/lex.c:161 | `strcmp` order is irreflexive |
| Lexer.StrLessTransitive | src/lex.c:161 | `strcmp` order is transitive |
| Lexer.KeywordsAdjacentSorted | src/lex.c:121-140 | neighbouring keyword table entries are in `strcmp` order |
| Lexer.PrintCharBeforePrintInt | src/lex.c:132-133 | `print_char` sorts before `print_int` |
| Lexer.KeywordsSorted | src/lex.c:121-140 | the keyword table is sorted, which the early-exit search relies on |
| Lexer.WordType | src/lex.c:159-168 | a word is an identifier or a keyword |
| Lexer.WordTypeFrom | src/lex.c:160-163 | the search from entry i gives an identifier or a keyword |
| Lexer.WordTypeSpec | src/lex.c:159-168 | a word is a keyword exactly when the table holds it, and then it has that keyword's type |
| Lexer.WordTypeFromSpec | src/lex.c:160-168 | the same for the search from entry i |
| Lexer.ScanWord | src/lex.c:142-170 | consumes the whole identifier run and gives its (truncated) name and type |
| Lexer.DigitRun | src/lex.c:175-179 | the digit run lies inside the text |
| Lexer.DigitRunSpec | src/lex.c:175-179 | the run is all digits and the char after it is not |
| Lexer.NumberAt | src/lex.c:172-183 | consumes the whole digit run and gives its decimal value |
| Lexer.Decimal | src/lex.c:175-179 | a decimal numeral is a non-empty digit string |
| Lexer.DecimalRoundTrip | src/lex.c:174-179 | scanning the numeral of n gives n |
| Lexer.SymbolAt | src/lex.c:185-250 | a symbol consumes one or two chars and never gives `<>` or `%`; a char other than `:`, `>` and `<` is consumed alone, and a char outside `: = > < ( ) ; * / + -` gives LX_ERROR after that one char |
| Lexer.MaximalMunch | src/lex.c:192-221 | `:=`, `>=` and `<=` are taken as two-char symbols, `>` and `<` alone otherwise, and `:` alone is an error |
| Lexer.NextUnit | src/lex.c:252-275 | a unit other than EOF or error consumes input; no unit is `<>`, `%` or a character constant |
| Lexer.Units | src/lex.c:252-275 | the unit list ends with the first EOF or error |
| Lexer.BlankInput | src/lex.c:255-260 | blank input gives EOF |
| Lexer.NextUnitSteps | src/lex.c:252-270 | the unit is scanned after the whitespace, by the branch its first char selects |
| Lexer.Scanner.constructor | src/lex.c:49-50 | scanning starts at the start of the text, line 1, column 1 |
| Lexer.Scanner.GetChar | src/lex.c:88-101 | peeking returns the current char without moving; reading moves one char and counts lines and columns |
| Lexer.Scanner.SkipWhitespace | src/lex.c:108-114 | the cursor moves to `AfterWhitespace` |
| Lexer.Scanner.LookupWord | src/lex.c:159-168 | the table search returns `WordType(name)` |
| Lexer.Scanner.ReadWord | src/lex.c:149-158 | reads the identifier run and keeps its first MAX_STR-1 chars |
| Lexer.Scanner.KeepChar | src/lex.c:153-157 | one loop turn keeps the char when there is room and reads the next |
| Lexer.Scanner.ScanIdentifierOrKeyword | src/lex.c:142-170 | the unit is `ScanWord` |
| Lexer.Scanner.ReadDigits | src/lex.c:175-179 | reads the digit run and accumulates its value |
| Lexer.Scanner.AddDigit | src/lex.c:176-178 | one loop turn multiplies by ten and adds the digit |
| Lexer.Scanner.ScanNumber | src/lex.c:172-183 | the unit is the number `NumberAt` gives |
| Lexer.Scanner.ScanSymbol | src/lex.c:185-250 | the unit is `SymbolAt` |
| Lexer.Scanner.Scan | src/lex.c:252-275 | the unit and the cursor are `NextUnit` |
| Parser.VarName | src/parse.c:239 | a letter names the upper-case variable |
| Parser.Expect | src/parse.c:208-222 | passes exactly when the unit has the expected type, skipping it if asked |
| Parser.Optional | src/parse.c:202-206 | skips the unit exactly when it has the type |
| Parser.Factor | src/parse.c:247-271 | a factor consumes at least one unit |
| Parser.TermRest | src/parse.c:279-301 | the loop stays inside the units |
| Parser.Term | src/parse.c:274-303 | a term consumes at least one unit |
| Parser.Signs | src/parse.c:313-318 | the sign run stays inside the units |
| Parser.ExpressionRest | src/parse.c:327-337 | the loop stays inside the units |
| Parser.Expression | src/parse.c:306-339 | an expression consumes at least one unit |
| Parser.Comparison | src/parse.c:348-382 | a comparison consumes at least one unit |
| Parser.ComparisonRest | src/parse.c:352-380 | the optional operator part stays inside the units |
| Parser.Nots | src/parse.c:391-395 | the `not` run stays inside the units |
| Parser.AndRest | src/parse.c:404-412 | the loop stays inside the units |
| Parser.And | src/parse.c:385-414 | an and-expression consumes at least one unit |
| Parser.OrRest | src/parse.c:422-430 | the loop stays inside the units |
| Parser.Or | src/parse.c:417-432 | an or-expression consumes at least one unit |
| Parser.Assignment | src/parse.c:435-444 | an assignment consumes the name, `:=` and at least one more unit |
| Parser.IfStatement | src/parse.c:479-496 | an `if` consumes at least one unit |
| Parser.IfThen | src/parse.c:485-486 | the `then` part consumes at least one unit |
| Parser.IfRest | src/parse.c:487-495 | the end of an `if` consumes at least one unit |
| Parser.WhileStatement | src/parse.c:498-508 | a `while` consumes at least one unit |
| Parser.WhileBody | src/parse.c:504-507 | the body part consumes at least one unit |
| Parser.SpawnNames | src/parse.c:519-532 | the name loop consumes at least one unit and stops before the last |
| Parser.SpawnStatement | src/parse.c:511-535 | a `spawn` consumes at least one unit |
| Parser.PrintCharStatement | src/parse.c:538-547 | succeeds exactly when a character constant follows, and consumes two units |
| Parser.Statement | src/parse.c:576-606 | a statement stays inside the units |
| Parser.AsStatement | src/parse.c:576-606 | a parsed statement becomes a non-null statement entry |
| Parser.Statements | src/parse.c:463-473 | the statement loop stays inside the units |
| Parser.StatementSequence | src/parse.c:449-475 | a statement sequence stays inside the units |
| Parser.TaskDeclaration | src/parse.c:609-621 | a task declaration consumes at least one unit |
| Parser.TaskBody | src/parse.c:618-619 | the body and `end` consume at least one unit |
| Parser.TaskDeclarations | src/parse.c:643-654 | the loop stops before the last unit |
| Parser.ModuleDeclaration | src/parse.c:627-658 | a module declaration consumes at least one unit |
| Parser.ModuleInit | src/parse.c:638-641 | the initialisation part consumes at least one unit |
| Parser.ModuleEnd | src/parse.c:640-641 | the end of the module consumes at least one unit |
| Parser.ModuleTasks | src/parse.c:642-656 | the task part consumes at least one unit |
| Parser.Parse | src/parse.c:660-667 | a tree comes back exactly when a module declaration parses and the end of file follows |
| Parser.Prepend | src/parse.c:468-472 | an empty prefix leaves the rest unchanged |
| Parser.StatementsStep | src/parse.c:463-473 | one loop turn moves one statement from the rest to the list built |
| Parser.SpawnNamesStep | src/parse.c:519-532 | one loop turn moves one name to the list built |
| Parser.TaskDeclarationsStep | src/parse.c:643-654 | one loop turn moves one task to the list built |
| Parser.SignsStep | src/parse.c:313-318 | a `-` flips the sign and a `+` keeps it |
| Parser.TermRestStep | src/parse.c:279-301 | one loop turn makes the operator node the new left operand |
| Parser.ExpressionRestStep | src/parse.c:327-337 | one loop turn makes the operator node the new left operand |
| Parser.AndRestStep | src/parse.c:404-412 | one loop turn makes the `and` node the new left operand |
| Parser.OrRestStep | src/parse.c:422-430 | one loop turn makes the `or` node the new left operand |
| Parser.Parser.constructor | src/parse.c:663 | the parser starts at the first unit |
| Parser.Parser.ParseExpect | src/parse.c:208-222 | agrees with `Expect` |
| Parser.Parser.ParseOptional | src/parse.c:202-206 | agrees with `Optional` |
| Parser.Parser.ParseNumber | src/parse.c:224-232 | a number node with the unit's value, one unit consumed |
| Parser.Parser.ParseVariableName | src/parse.c:234-242 | a variable node named `VarName`, one unit consumed |
| Parser.Parser.ParseFactor | src/parse.c:247-271 | agrees with `Factor` |
| Parser.Parser.ParseTerm | src/parse.c:274-303 | agrees with `Term` |
| Parser.Parser.ParseTermRest | src/parse.c:279-301 | agrees with `TermRest` |
| Parser.Parser.ParseSigns | src/parse.c:312-318 | agrees with `Signs` |
| Parser.Parser.ParseExpression | src/parse.c:306-339 | agrees with `Expression` |
| Parser.Parser.ParseExpressionRest | src/parse.c:327-337 | agrees with `ExpressionRest` |
| Parser.Parser.ParseComparison | src/parse.c:348-382 | agrees with `Comparison` |
| Parser.Parser.ParseComparisonRest | src/parse.c:352-380 | agrees with `ComparisonRest` |
| Parser.Parser.ParseNots | src/parse.c:390-395 | agrees with `Nots` |
| Parser.Parser.ParseAnd | src/parse.c:385-414 | agrees with `And` |
| Parser.Parser.ParseAndRest | src/parse.c:404-412 | agrees with `AndRest` |
| Parser.Parser.ParseOr | src/parse.c:417-432 | agrees with `Or` |
| Parser.Parser.ParseOrRest | src/parse.c:422-430 | agrees with `OrRest` |
| Parser.Parser.ParseAssignment | src/parse.c:435-444 | agrees with `Assignment` |
| Parser.Parser.ParseStatementSequence | src/parse.c:449-475 | agrees with `StatementSequence` |
| Parser.Parser.ParseSequenceItem | src/parse.c:464-472 | one loop turn: a statement and its `;` move to the list built, or the sequence fails |
| Parser.Parser.ParseIf | src/parse.c:479-496 | agrees with `IfStatement` |
| Parser.Parser.ParseIfThen | src/parse.c:485-486 | agrees with `IfThen` |
| Parser.Parser.ParseIfRest | src/parse.c:487-495 | agrees with `IfRest` |
| Parser.Parser.ParseWhile | src/parse.c:498-508 | agrees with `WhileStatement` |
| Parser.Parser.ParseWhileBody | src/parse.c:504-507 | agrees with `WhileBody` |
| Parser.Parser.ParseSpawn | src/parse.c:511-535 | agrees with `SpawnStatement` |
| Parser.Parser.ParseSpawnName | src/parse.c:521-531 | one loop turn: a name and its `;` move to the list built, or the names fail |
| Parser.Parser.ParsePrintChar | src/parse.c:538-547 | agrees with `PrintCharStatement` |
| Parser.Parser.ParseStatement | src/parse.c:576-606 | agrees with `Statement` |
| Parser.Parser.ParseTaskDeclaration | src/parse.c:609-621 | agrees with `TaskDeclaration` |
| Parser.Parser.ParseTaskBody | src/parse.c:618-619 | agrees with `TaskBody` |
| Parser.Parser.ParseModuleDeclaration | src/parse.c:627-658 | agrees with `ModuleDeclaration` |
| Parser.Parser.ParseModuleInit | src/parse.c:638-641 | agrees with `ModuleInit` |
| Parser.Parser.ParseModuleEnd | src/parse.c:640-641 | agrees with `ModuleEnd` |
| Parser.Parser.ParseModuleTasks | src/parse.c:642-656 | agrees with `ModuleTasks` |
| Parser.Parser.ParseTaskDeclarations | src/parse.c:643-654 | agrees with `TaskDeclarations` |
| Parser.Parser.ParseModule | src/parse.c:660-667 | agrees with `Parse` |
| ParserFacts.TermRestStops | src/parse.c:279-281 | the term loop ends at the first unit that is not `*` `/` `%` |
| ParserFacts.TermStops | src/parse.c:274-303 | a term ends before a unit that is not a multiplicative operator |
| ParserFacts.ExpressionRestStops | src/parse.c:327-328 | the addition loop ends at the first unit that is neither `+` nor `-` |
| ParserFacts.ExpressionStops | src/parse.c:306-339 | an expression ends before a unit that continues neither its terms nor its sums |
| ParserFacts.ComparisonAtMostOne | src/parse.c:348-382 | a comparison takes at most one relational operator |
| ParserFacts.ComparisonRestStops | src/parse.c:352-380 | the same after the left operand |
| ParserFacts.RelOpKinds | src/parse.c:355-375 | each relational operator gives a relational node type |
| ParserFacts.ChainedComparisonEndsOr | src/parse.c:417-432 | a second relational operator ends the or-expression |
| ParserFacts.ChainedComparisonFails | src/parse.c:479-496 | so `if a < b < c then` fails |
| ParserFacts.AndRestStops | src/parse.c:404 | the `and` loop ends at the first unit that is not `and` |
| ParserFacts.OrRestStops | src/parse.c:422 | the `or` loop ends at the first unit that is not `or` |
| ParserFacts.TermLeftAssociative | src/parse.c:296-300 | `x op y op z` parses as `(x op y) op z` |
| ParserFacts.ExpressionLeftAssociative | src/parse.c:332-336 | `x + y - z` parses as `(x + y) - z` |
| ParserFacts.AndLeftAssociative | src/parse.c:407-411 | `x and y and z` parses as `(x and y) and z` |
| ParserFacts.OrLeftAssociative | src/parse.c:425-429 | `x or y or z` parses as `(x or y) or z` |
| ParserFacts.CountKind | src/parse.c:316 | at most k of k units have a given type |
| ParserFacts.SignsParity | src/parse.c:312-318 | the sign run is the maximal run of `+`/`-`, and it is negative exactly when it holds an odd number of `-` |
| ParserFacts.ExpressionNegatesFirstTerm | src/parse.c:319-326 | the first term, and only it, is negated exactly when the sign run is negative |
| ParserFacts.NotsParity | src/parse.c:390-395 | the `not` run is maximal and negates exactly when it is odd |
| ParserFacts.AndNegatesFirstComparison | src/parse.c:396-403 | the first comparison, and only it, is wrapped in NOT exactly when the run is odd |
| ParserFacts.NullStatement | src/parse.c:576-606 | a statement is null exactly when the unit starts no statement, and then nothing is consumed |
| ParserFacts.StatementsStop | src/parse.c:463 | a statement sequence at `else` or `end` is empty, and a parsed one stops at one of them |
| ParserFacts.IfShape | src/parse.c:487-495 | the false branch is null exactly when no `else` follows |
| ParserFacts.SpawnNamesShape | src/parse.c:519-533 | at least one name, each an identifier followed by `;`, up to `end` |
| ParserFacts.TaskDeclarationsShape | src/parse.c:643-655 | the task list ends at `end` and each task is a task node |
| ParserFacts.ModuleInitShape | src/parse.c:638-657 | a parsed module is a module node with its name and initialisation sequence |
| ParserFacts.ParseShape | src/parse.c:660-667 | a parsed program is a module declaration followed by end of file |

## Left out

- Threads: `pthread_create`/`pthread_join` in src/exec.c:83-103 and 274-300 are not modelled. END_SPAWN is a join of children that have already run; `Task.RunThenJoin` models only the parent's stack bookkeeping.
- Output and timing: `printf` and `sleep` become events appended to the task's output, not real I/O; the `OP_BAD` line of src/exec.c:267 is the event `BadOut`.
- `main`, the command line, `fopen`/`access` and `exec_run_module_at_init_code`: not modelled. Reading a module starts from a file given as its bytes. The `Module` value has no init-task field, so the null `mod_p_init_task` that `module_read` sets (src/module.c:21) is not represented.
- src/disasm.c, src/header-print.c, `parse_print_tree` and `lex_print`: debugging printers, not modelled.
- `malloc`/`free`, `module_free`: allocation is implicit; a failed `malloc` is not modelled.
- MAX_STR: util.h is not part of this model, so the buffer size for names is a parameter `maxStr`.
- The enum lists `lex-enums.txt`, `opcode-enums.txt` and `parse-node-enum.txt` are not part of this model. The enums are Dafny datatypes; only END_TASK = 0 is relied on (a zeroed code slot holds END_TASK).
- Lexer.Scanner.ScanNumber: does not model the `int32_t` overflow of long numerals (src/lex.c:174-176); the value is an unbounded integer. The code generator takes only numbers that fit 32 bits (`Compilable`).
- Lexer.Scanner.GetChar: the line and column counters are unbounded; 32-bit wrap-around of `g_input_line_n` is not modelled.
- Parser.ParseText: no contract; the parser reads the whole unit list the lexer produces, cut at the first EOF or error. Lexing and parsing are not interleaved unit by unit.
- Parser.PrintCharStatement: reads a character-constant unit that the lexer never produces (`NextUnit` never yields `CharLit`), so `print_char` statements cannot be parsed from text.
- The expected unit types of the built-in sample program (src/mini-pogo.c:16-95 against the text at 156-179) are not proved.
- CodeGen.Compiler.LookupLabel: compile.c's own chained label table is modelled as a map from name to label. The bucket placement is the algorithm of src/symbol-table.c, modelled and proved in `SymbolTable`, and the hash is `Hashing.Hash`.
- CodeGen.Emit: follows the code as written, including its gaps:
  - `ND_ASSIGN` emits POP_INT without compiling the expression;
  - statement sequences, task and module nodes emit nothing;
  - `compile_ND_PRINT_INT()` is called without its argument, so the defined function is modelled;
  - `ND_NOT` goes through `compile_binary_op`, whose right operand is then uninitialised memory (undefined behaviour; src/parse.c:399-402 sets only `nd_p_expr`); the model compiles no right operand;
  - PUSH_VAR and the `gen` PRINT_CHAR drop their operand;
  - the spawn loop advances `g_ip` twice per name.
  - `ND_REMAINDER` has no case in the dispatcher, so a `%` term emits nothing (the lexer never produces `%`).
- CodeGen.SpawnLabels: the name of a label created for a forward reference is never set in C (undefined); the model records it under the task name.
- BinaryHeader.HeaderBuffer.Read: `hdr_labels` in src/binary-header.c:157-161 is modelled as the header's label list. `hdr_n_strings` and the string list are never written or read, so they are not part of the format modelled.
- Exec.Runtime.DefinedNow: treats POP_INT and PUSH_VAR on `A`..`Z` as defined, and the model keeps the variables in a map of their own. In C, `task_variables` has 26 slots (src/exec.h:27) but is indexed with the letter codes 65..90 (src/exec.c:42, 136 and 236), so every initialisation, POP_INT and PUSH_VAR is out of bounds; in the usual record layout `A`..`Z` share storage with `task_stack[39..64]`, so a stack deeper than 39 words and the variables overwrite each other. That aliasing is not modelled.
- Lexer.NextUnit: the text is a Dafny string whose chars stand for the bytes `fgetc` delivers (src/mini-pogo.c:110, src/lex.c:88-90). Classifying a char (whitespace, letter, digit, symbol) and a digit's value use the char reduced modulo 256 (`Lexer.CharValue`), but a scanned name keeps the raw chars and the keyword search compares them raw. A char above U+00FF is therefore read neither as the UTF-8 byte sequence C would see nor consistently as one byte: `ũf` scans as an identifier although its reduced chars spell `if`. The same holds for `Lexer.Units` and `Lexer.Scanner.Scan`.
- Exec.Runtime.AddSpawnTask: the search for the child task's name in the header labels (src/exec.c:58-65) is not modelled; the child's name is not observable by the machine.
- Exec.Step: the run loop needs a `fuel` bound, because a task may loop forever. Undefined steps (stack overflow or underflow, signed overflow, division by zero, a variable outside `A`..`Z`, an instruction pointer outside the code; for the variables `A`..`Z` themselves see the `Exec.Runtime.DefinedNow` line above) are preconditions of the step methods and an `Undefined` outcome of `Run`.
