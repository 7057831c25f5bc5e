# Stak Scheme in Dafny

Stak Scheme compiles Scheme programs to bytecode and runs the bytecode on a small virtual machine with a copying
garbage collector. This project models the parts of it that carry the hardest obligations and proves what they
promise. The modules follow the source:

- **Bytecode.** `IntegerCodes` holds the integer codes. `Lzss` is the compression format on plain sequences, with
  the ring buffer (`RingBuffers`), the streaming compressor and decompressor (`IteratorCompressors`,
  `Decompressors`) and the compiler's list compressor (`ListCompressors`) proved against it. `RibGraphs`,
  `RibTokens` and `Encoding` say how a graph of ribs becomes tokens and how a stack machine reads them back;
  `HeapDecoding` and `Decoders` refine that machine to the in-place decoder on the collected heap. `Counting` and
  `Sharing` relate the counting pass to the encoding pass, `Encoders` is the encoder itself, and `EndToEnd` puts
  everything together. `Marshalling` and `MarshalContexts` are marshalling, which makes the graphs that the encoder
  takes, `MarshalledConstants` reads constants back from them, and `CodeGraphs` says which ribs constants and code
  become.
- **Memory.** `Stores` is a heap that is never collected, with heap isomorphism. `Collection` is the copying
  collection on plain sequences. `Memories` is the memory object: each of its methods keeps an isomorphism to the
  heap that is never collected, so that a collection at any allocation changes nothing that can be observed.
- **Virtual machine.** `Machine` gives every instruction as a function on the heap that is never collected. `Vms`
  carries the same instructions out on the collected memory and agrees with `Machine` over whole runs. `Calls` and
  `Depth` state what calls do to arguments, frames and continuations.
- **Code generator.** `Scheme` is the language of expanded expressions, their free variables and their meaning.
  `CodeGenerator` is the code generator. `Worlds`, `Execution`, `Instructions` and `Applications` relate the heap of
  a running program to its meaning, `Compilation` proves the code right, `Programs` carries this over to the
  collected memory, and `ExposedTests` is a program that the code generator gets wrong.
- **Whole programs.** `Loading` proves that decoded code lies in the heap as generated code expects it, `Globals` that
  the variables of a program are symbols there, `Booting` that the start of every program names the primitives, and
  `Lowering` that all generated code can be marshalled. `WholePrograms` runs an expression from its code by way of
  bytecode to its value, and `Analysis` starts from the expression before the analysis of free variables.
- **Foreign objects.** `Foreign` is the table of foreign objects whose slots are named by cells of the heap.
- **Libraries.** `Macros` is the `syntax-rules` matcher and filler, with `MacroPatterns` saying what matches,
  `MacroTemplates` what is filled in, and `MacroRules` what the rules of a macro make of an expression. `Mappings` and
  `MappingNodes` are the AA tree as a value and in place, and `Vectors` is the 64-way radix vector.

`Options`, `Arithmetic` and `Distinctness` are shared by several of these.

Objects that the source changes in place are classes whose methods are proved against functions, and the properties
are lemmas about these functions.

## Findings

- The code for `(let ((x 7)) (if ((begin rib) (set! f (lambda () x)) 1 0) (f) #f))` is wrong. The result of a call
  with a computed operator overwrites the operator's stack cell (compile.scm:1086-1089), a closure that is made among
  the arguments has kept that cell as part of its environment, and the `if` instruction then reuses the cell as code
  (vm/src/vm.rs:218-227), so that the closure finds its variable in the code. `ExposedTests.ExposedTestGoesWrong`
  proves this of the whole run. A taken branch changes an environment exactly if the popped cell is one of its links
  and the branch is not what the cell linked to (`Machine.BranchKeepsIff`, `Instructions.TakenBranchKeepsIff`).
  Code generation can see to it: `Compilation.CompileRuns` proves the generated code right whenever no test of an
  `if` form ends with a call whose operator is computed and whose arguments make a closure
  (`CodeGenerator.IsExposed`).
- The name `$procedure`, which generated code gives to a computed operator, is not reserved: a global variable of that
  name is not found among the arguments of such a call (`CodeGenerator.OperatorNameIsTaken`).
- LZSS gives back the low seven bits of every byte, and so the input exactly if all bytes are below 128.
- A memory of eight words is full from the start and fails at its first allocation without any collection.

## Model

| member | source | states |
|---|---|---|
| `IntegerCodes.LastPartIsMarked` | compile.scm:1914-1932 | the continuation bit of a head is clear exactly if no byte follows it, and of the bytes that follow only the last has it clear |
| `IntegerCodes.IntegerRoundTrip` | compile.scm:1914-1932 | an encoded integer followed by any bytes decodes to the integer and leaves exactly those bytes if and only if the weight that the reader computes after its last byte fits in 128 bits, as it does for every integer below 2 to the power of 122 |
| `IntegerCodes.NumberRoundTrip` | vm/src/vm.rs:520-537 | a number survives encoding and decoding if and only if it is a signed 63-bit integer |
| `IntegerCodes.NumberBytesRoundTrip` | vm/src/vm.rs:539-553 | the bytes of every signed 63-bit number decode to it whatever follows them |
| `Lzss.MatchIsLongest` | lzss/src/compress.rs:66-79 | a match repeats the text at its offset and cannot be longer: it ends at 128, at the end of the input, or at a difference |
| `Lzss.BestIsBest` | lzss/src/compress.rs:66-81 | the chosen match is at least as long as the match at every offset of the window, and longer than those at smaller offsets |
| `Lzss.BestIsUnique` | lzss/src/compress.rs:66-81 | being the best match in this sense determines offset and length |
| `Lzss.CopiesIffRepeated` | lzss/src/compress.rs:66-88 | at a position bytes are copied if and only if at least three of them repeat bytes at some offset of the window; as many as any offset repeats, up to 128, are copied then, from the nearest such offset, and otherwise the byte is written as it is |
| `Lzss.CompressShrinks` | lzss/src/compress.rs:82-88 | output is never longer than input |
| `Lzss.DecompressStep` | lzss/src/decompress.rs:25-47 | decompression hands out one byte per call until the input ends |
| `Lzss.RunInvertsBytes` | lzss/src/decompress.rs:25-47 | any tokens that stand for a text, greedy or not, decompress to its low seven bits, overlapping matches and matches into the initial zeros included |
| `Lzss.IteratorRoundTrip` | lzss/src/compress.rs:58-89 | what the streaming compressor produces for a window decompresses with that window to the low seven bits of the input |
| `Lzss.ListRoundTrip` | compile.scm:1757-1794 | what the compiler's compressor produces decompresses with the greatest window to the low seven bits of the input |
| `Lzss.RoundTripIffSevenBits` | lzss/src/lib.rs:24-43 | compression is undone exactly for inputs of bytes below 128 |
| `Lzss.MaskIsIdentityIffSevenBits` | lzss/src/compress.rs:82-88 | keeping seven bits changes nothing exactly if all bytes are below 128 |
| `RingBuffers.RingBuffer.Push` | lzss/src/ring_buffer.rs:17-20 | drops the oldest byte and appends the new one |
| `RingBuffers.RingBuffer.Get` | lzss/src/ring_buffer.rs:22-33 | indices count from the oldest byte and wrap around |
| `Decompressors.Decompressor.Next` | lzss/src/decompress.rs:25-47 | one call is one step of the format's machine: a byte, the end, or an index outside the window |
| `Decompressors.Decompressor.Collect` | lzss/src/decompress.rs:25-47 | calling until the end gives the decompression of the input |
| `IteratorCompressors.IteratorCompressor.NextByte` | lzss/src/compress.rs:25-36 | takes the next byte of the input, whether it has been looked at or not |
| `IteratorCompressors.IteratorCompressor.Peek` | lzss/src/compress.rs:38-53 | looks ahead without moving, reading no more input than needed |
| `IteratorCompressors.IteratorCompressor.FindMatch` | lzss/src/compress.rs:64-81 | finds the best match of the window for the whole remaining input without an index underflow, and has it in the buffer |
| `IteratorCompressors.IteratorCompressor.Next` | lzss/src/compress.rs:58-89 | hands out the bytes of the greedy compression of the input one by one, and then none |
| `ListCompressors.ListCompressor.Push` | compile.scm:1730-1740 | appends a byte to the lists, whatever their state: the state stays sound exactly if the byte has seven bits and the current list had not run out of a buffer, where the byte would be lost |
| `ListCompressors.ListCompressor.Pop` | compile.scm:1742-1755 | advances the position and keeps at most 256 bytes behind it |
| `ListCompressors.ListCompressor.FindMatch` | compile.scm:1757-1776 | finds the best match of the window, the later of two equally long ones |
| `ListCompressors.ListCompressor.WriteNext` | compile.scm:1777-1783 | writes the next token of the greedy compression |
| `ListCompressors.ListCompressor.Write` | compile.scm:1785-1789 | keeps a look-ahead of at most 128 bytes and never lets it run empty |
| `ListCompressors.ListCompressor.Flush` | compile.scm:1791-1794 | the whole output is the greedy compression of everything written |
| `ListCompressors.TokenLooksAhead` | compile.scm:1785-1789 | a token chosen with 128 bytes ahead does not depend on what is written later |
| `ListCompressors.AdvanceTrack` | compile.scm:1785-1789 | what has been written is a prefix of the compression of every continuation of the text |
| `RibTokens.TokenRoundTrip` | vm/src/vm.rs:464-514 | the bytes of a token followed by any bytes read back as the token, leaving exactly those bytes |
| `RibTokens.FirstByteTellsKind` | vm/src/vm.rs:467-512 | the two lowest bits of the first byte of a token tell references, ribs and numbers apart, and a lone zero byte remembers |
| `RibTokens.BasesAreGreatest` | compile.scm:1827-1830 | the bases of the integer codes are the greatest for which all bytes of all tokens have the seven bits that compression keeps |
| `Encoding.EntryIsUsed` | compile.scm:1960-1975 | a reference names the first place of a value in the dictionary; the value moves to the front if it is still to be met and leaves otherwise, and all other entries keep their order |
| `Encoding.DecodeInvertsEncode` | compile.scm:1954-1988 | for every acyclic graph, any counts and any dictionary that the decoder mirrors, decoding what is encoded pushes one value with the same tree, nops stripped, and the dictionaries correspond again entry for entry |
| `HeapDecoding.StepHolds` | vm/src/vm.rs:468-511 | each token does to the heap, where stack cells become ribs and dictionary cells are relinked, what it does to a plain stack and dictionary, all cells staying apart |
| `HeapDecoding.RunHolds` | vm/src/vm.rs:464-518 | so does every sequence of tokens |
| `Decoders.DecodeIntegerTail` | vm/src/vm.rs:539-553 | reads exactly the bytes of an integer code from the decompressor |
| `Decoders.RememberTop` | vm/src/vm.rs:468-475 | enters the top of the stack into the dictionary on a heap that may be collected meanwhile |
| `Decoders.MoveEntry` | vm/src/vm.rs:476-490 | relinks a dictionary cell to the front in place |
| `Decoders.ReferTo` | vm/src/vm.rs:476-497 | pushes a dictionary entry and removes it if it is used up |
| `Decoders.MakeRib` | vm/src/vm.rs:498-508 | turns two values on the stack into a rib, reusing the popped stack cell |
| `Decoders.DecodeToken` | vm/src/vm.rs:467-512 | reads one token from compressed input and carries it out |
| `Decoders.DecodeRibs` | vm/src/vm.rs:464-518 | decoding a compressed token sequence carries out the tokens and returns the value they build, whenever garbage is collected; out of memory is reported only if the last collection, or creation, left a whole space live |
| `Counting.CountDataIsWalk` | compile.scm:1864-1872 | on typed graphs counting data counts the visits of a traversal that enters shared values once |
| `Counting.CountCodeIsWalk` | compile.scm:1874-1893 | on typed graphs counting code counts the visits of the same traversal |
| `Counting.CountProgramIsWalk` | compile.scm:2017-2024 | a whole program is counted as it is traversed |
| `Counting.EncodeKeepsCount` | compile.scm:1954-1988 | while encoding, the counts are always the visits still to come, and the dictionary holds exactly the values met and still to be met |
| `Counting.EncodingUsesUpCounts` | compile.scm:2026-2034 | encoding a well-typed program ends with an empty dictionary and all counts zero, so neither closing error can occur |
| `Counting.MixedCodeIsLeftOver` | compile.scm:1874-1893 | why marshalling has to make code anew: a graph with an instruction that is reached through nops and directly ends with a dictionary entry left and a count of minus one |
| `Sharing.ShareEncode` | vm/src/vm.rs:476-497 | all occurrences of a shared value decode to one and the same rib, each decoded rib comes from one rib of the graph, and fields, numbers and tags are copied |
| `Encoders.EncodeContext.CountData` | compile.scm:1865-1872 | updates the counts as the counting function says |
| `Encoders.EncodeContext.CountCode` | compile.scm:1874-1893 | updates the counts as the counting function says |
| `Encoders.EncodeContext.EncodeRib` | compile.scm:1954-1988 | writes exactly the tokens of a value to the compressor and leaves the dictionary and counts they imply |
| `Encoders.EncodeContext.EncodeReference` | compile.scm:1961-1975 | writes one reference, uses up one count and moves or removes the entry |
| `Encoders.EncodeProgram` | compile.scm:2011-2034 | counts, encodes, compresses and checks: the bytecode is the compression of the program's tokens unless the closing checks find something left |
| `EndToEnd.EncodesWritable` | compile.scm:1954-1988 | dictionary indices, tags and numbers never exceed what the integer codes can carry |
| `EndToEnd.BytecodeRoundTrip` | vm/src/vm.rs:464-518 | decompressing a program's bytecode gives its tokens, and decoding them on a blank heap gives a value with the program's tree, nops stripped |
| `EndToEnd.BytecodeKeepsSharing` | vm/src/vm.rs:464-518 | and in the decoded heap every shared value of a program is one cell, different ones being different cells, and the dictionary is empty again |
| `EndToEnd.Transfer` | vm/src/vm.rs:434-440 | encoding, compressing, decompressing and decoding into a new memory leaves the program's tree in the real heap, with one cell for each shared value, however small the heap is and however often it is collected, unless it runs out |
| `Marshalling.MarshalsData` | compile.scm:1580-1649 | marshalling a constant makes ribs that stand for its tree, keeps the graph well typed and the shared constants apart, and finds each shared constant again |
| `MarshalledConstants.MarshalledIsRead` | compile.scm:1580-1649 | the types, lengths, characters, names and elements that the accessors of the library find in the ribs of a constant are those of the constant |
| `Marshalling.MarshalsCode` | compile.scm:1651-1696 | marshalling code makes ribs for its tree, nops left out; a new instruction has nothing leading to it yet, so that what a nop leads to is reached in no other way |
| `Marshalling.MarshalledIsProgram` | compile.scm:1698-1711 | whatever the code generator makes, the encoder gets a well-typed program: code and data are told apart, no instruction is reached both through a nop and directly, and null, booleans, characters, strings and symbols are one rib each |
| `Marshalling.MarshalledUsesUpCounts` | compile.scm:2026-2034 | so the two closing errors of the encoder cannot occur for any marshalled program |
| `MarshalContexts.MarshalContext.WriteData` | compile.scm:1580-1649 | with a context that is changed in place, makes the ribs that marshalling a constant makes and remembers the shared ones |
| `MarshalContexts.MarshalContext.WriteCode` | compile.scm:1651-1696 | so it does for code, remembering the continuation of every nop |
| `CodeGraphs.ProgramIsMade` | compile.scm:1651-1696 | a marshalled program consists of the ribs of its code, instruction by instruction, every occurrence of a shared constant being the rib that is remembered for it |
| `Stores.SameMoves` | vm/src/memory.rs:454-470 | isomorphic heaps agree on the equality of any two values |
| `Stores.IsoComposes` | vm/src/memory.rs:422-444 | isomorphisms compose, so any number of collections is invisible |
| `Stores.IsoSetCar` | vm/src/memory.rs:310-313 | writing a car on both sides keeps heaps isomorphic |
| `Stores.IsoSetRawCdr` | vm/src/memory.rs:325-327 | writing a cdr on both sides keeps heaps isomorphic |
| `Stores.IsoAllocate` | vm/src/memory.rs:206-222 | allocating on both sides keeps heaps isomorphic |
| `Collection.MoveKeepsCopying` | vm/src/memory.rs:459-468 | moving a cell and leaving a forwarding pointer keeps the invariant of a collection in progress: moved cells forward, other old cells are untouched, scanned words point to new cells and unscanned ones to old cells |
| `Collection.ScanKeepsCopying` | vm/src/memory.rs:434-440 | copying the word at the scan index and advancing keeps it, too |
| `Collection.RoomForOneMore` | vm/src/memory.rs:206-222 | there is always room for a cell that has not moved |
| `Collection.MovedIffReachable` | vm/src/memory.rs:422-444 | when the scan is done, exactly the cells reachable from the roots have moved |
| `Collection.DoneCopying` | vm/src/memory.rs:422-444 | a finished collection is a heap isomorphism on exactly the reachable cells |
| `Collection.MovedSurvive` | vm/src/memory.rs:422-444 | every allocated cell after a collection is one cell of before, its numbers and tags unchanged |
| `Memories.Memory.New` | vm/src/memory.rs:57-73 | creation fails exactly below eight words and leaves the two cells of a false value |
| `Memories.Memory.AllocateUnchecked` | vm/src/memory.rs:206-222 | fails exactly if the space is full and otherwise adds one cell at the end |
| `Memories.Memory.CopyCons` | vm/src/memory.rs:454-470 | moves a cell at most once and keeps the tag of the pointer |
| `Memories.Memory.CopyValue` | vm/src/memory.rs:446-452 | moves what a value points to and leaves numbers alone |
| `Memories.Memory.CopyLive` | vm/src/memory.rs:422-444 | terminates without running out of memory; the new heap is isomorphic to the old, cycles, sharing and tags included, and holds exactly the cells reachable from the roots |
| `Memories.Memory.CollectGarbages` | vm/src/memory.rs:422-444 | leaves no trace in the heap that is never collected, and exactly twice as many words allocated as cells are reachable |
| `Memories.Memory.Allocate` | vm/src/memory.rs:190-204 | adds one cell to the heap that is never collected; fails only if the last collection, or creation, left the whole space live; no other allocated cell appears |
| `Memories.Memory.SetCdr` | vm/src/memory.rs:315-323 | keeps the tag that the field had |
| `Memories.Memory.SetRawCdr` | vm/src/memory.rs:325-327 | replaces the field, tag included |
| `Memories.Memory.SetCar` | vm/src/memory.rs:310-313 | replaces the field of that cell only |
| `Memories.Memory.Push` | vm/src/memory.rs:134-138 | conses onto the stack with the pair tag |
| `Memories.Memory.Pop` | vm/src/memory.rs:141-147 | takes the top of the stack |
| `Memories.Memory.Tail` | vm/src/memory.rs:348-356 | the cell that many steps down a list |
| `Machine.ArityRoundTrip` | vm/src/vm.rs:329-338 | building and parsing an arity undo each other both ways |
| `Machine.BranchKeepsIff` | vm/src/vm.rs:218-227 | a taken branch leaves a list, such as an environment, as it was if and only if the popped cell is none of its links or the branch is what the cell linked to |
| `Vms.If` | vm/src/vm.rs:218-227 | branches as the machine without a collector does, reusing the popped cell in place |
| `Vms.AdvanceCode` | vm/src/vm.rs:340-361 | advances or returns as the machine without a collector does |
| `Vms.Enter` | vm/src/vm.rs:251-306 | enters a procedure as the machine without a collector does, the procedure and the arguments surviving every collection on the way |
| `Vms.Call` | vm/src/vm.rs:230-327 | calls closures and primitives as the machine without a collector does, the list of a variadic call of a primitive being spread in place, and reports the same errors |
| `Vms.Close` | r7rs/src/small.rs:117-126 | makes a closure of the stack as the machine without a collector does |
| `Vms.Step` | vm/src/vm.rs:160-182 | one instruction ends in a state isomorphic to that of the machine without a collector |
| `Vms.Initialize` | vm/src/vm.rs:434-462 | sets the roots of a decoded program and makes its first frame, none of its parts being lost to a collection |
| `Vms.RunFor` | vm/src/vm.rs:160-182 | so does a run of any number of steps; the heap is exhausted only if the last collection, or creation, left a whole space live |
| `Vms.RunToEnd` | vm/src/vm.rs:160-182 | a run that ends on the machine without a collector ends here, in the same state or with the same error or with an exhausted heap |
| `Calls.PopCollects` | vm/src/vm.rs:260-269 | popping the arguments makes a list of them in order, in front of the list given to apply |
| `Calls.FrameIsMade` | vm/src/vm.rs:276-291 | a call that is not a tail call saves its code and stack in a new continuation; a tail call reuses the one of its frame |
| `Calls.BindSucceedsIffFits` | vm/src/vm.rs:293-305 | binding succeeds if and only if the number of arguments fits, and leaves the parameters in order above the frame with the rest list on top |
| `Calls.CallEntersIffFits` | vm/src/vm.rs:244-306 | a whole call enters the procedure if and only if the arguments fit, with frame, continuation and parameters in place, and reports an argument count error otherwise |
| `Calls.SpreadPushes` | vm/src/vm.rs:307-316 | spreading a list pushes its elements in order, the last one on top |
| `Calls.PrimitiveGetsArguments` | vm/src/vm.rs:307-322 | a call of a primitive succeeds and leaves exactly its arguments on the stack above what was there, in order, those from the list of a variadic call last |
| `Depth.DeepFrame` | vm/src/vm.rs:276-291 | a non-tail call makes the chain of continuations one longer, a tail call does not |
| `Depth.DeepReturn` | vm/src/vm.rs:340-361 | a return makes the chain one shorter and takes the value along |
| `Depth.StepDepth` | vm/src/vm.rs:160-182 | no other step of a disciplined state changes the length of the chain |
| `Depth.RunDepth` | vm/src/vm.rs:160-182 | in every disciplined run the length of the chain is the number of non-tail closure calls less the number of returns; `Programs.ProgramRuns` has this for every run of generated code |
| `Scheme.AnalysisIsSound` | compile.scm:946-1007 | the free-variable analysis notes every free variable that is bound around a lambda, so no closure is left without the environment it needs |
| `Scheme.AnalysisIsExact` | compile.scm:946-1007 | it notes exactly the variables bound around a lambda whose names occur in its body, shadowed or not |
| `Scheme.AnalysisOnlyNotes` | compile.scm:980-1007 | without its notes an analysed expression is the expression as it was |
| `Analysis.MeaningIgnoresNotes` | compile.scm:980-1007 | for every expression, environment and store, removing the notes from all of them changes the outcome only in that the closures in it carry no notes |
| `Analysis.AnalyzedProgramRuns` | compile.scm:2038-2068 | the code of an analysed program, when loaded, ends with the value or the error that the program had before the analysis, at the stated depth of calls |
| `Analysis.RunExpression` | compile.scm:2038-2068 | from an expression to its value by way of the analysis, the code generator and bytecode: the run ends with the value or the error of the expression as it was, closures but for their notes |
| `Scheme.RibKeepsTagIff` | r7rs/src/small.rs:112-116 | a rib has the tag that it is made with if and only if the tag has sixteen bits, tags of procedures left aside |
| `CodeGenerator.ExpressionContinues` | compile.scm:1130-1225 | the code of an expression never is empty or starts with a drop, which is what eliding drops relies on |
| `CodeGenerator.OperatorNameIsTaken` | compile.scm:1107-1128 | an argument that is a variable named like the compiler's operator slot, which can only be a global one, reads the operator instead |
| `Execution.Settle` | vm/src/vm.rs:340-361 | an expression's last instruction leads to what follows it: the next instruction, the one after an elided drop, or the caller |
| `Instructions.AssignVariable` | vm/src/vm.rs:206-216 | a write changes the location of the variable that the slot or symbol stands for and nothing else |
| `Instructions.TakeBranch` | vm/src/vm.rs:218-227 | a branch is taken exactly for values other than false, and overwrites no cell that an environment holds |
| `Instructions.TakenBranchKeepsIff` | vm/src/vm.rs:218-227 | a branch that is taken in generated code leaves everything that no longer changes as it is if and only if the popped cell is not part of it or the branch is the stack below |
| `Instructions.CloseTop` | r7rs/src/small.rs:117-126 | a closure pairs the code with the environment in which its free variables are found |
| `Instructions.UnbindTop` | r7rs/src/small.rs:127-130 | the variable below a value is dropped |
| `Applications.CollectAll` | vm/src/vm.rs:256-270 | the arguments of a call, those of apply spread out, become one list of values |
| `Applications.BindEach` | vm/src/vm.rs:293-305 | parameters become variables in the environment that the context of the body describes, exactly if the arguments fit |
| `Applications.EnterOn` | vm/src/vm.rs:244-306 | entering a closure sets up its environment, its frame and its way back |
| `Applications.SpreadOn` | vm/src/vm.rs:307-316 | the arguments of a primitive, those of apply spread out, are on the stack in order |
| `Applications.CallRib` | vm/src/vm.rs:307-322 | the rib primitive, called directly or by apply with a list of any of its arguments, leaves the rib of its arguments on the stack |
| `Applications.CallOther` | vm/src/vm.rs:235-237 | a call of a rib of another type, of false or of null fails with the error that a procedure was expected, whatever its arguments |
| `Applications.UnsafeUnbind` | compile.scm:1086-1089 | the result of a call replaces the computed operator below it, in a cell that a closure has kept only if one was made among the arguments |
| `Compilation.CompileRuns` | compile.scm:1130-1225 | for every expression and every continuation the generated code does what the expression means, with constants, variables, assignments, branches, sequences, let forms, closures, variadic and tail calls, elided drops and unbinds and shared continuations, or fails with its error; on the way every instruction keeps to its frame and every call that has been made is returned from |
| `Compilation.SequenceRuns` | compile.scm:1056-1062 | sequences leave only their last value |
| `Compilation.LetRuns` | compile.scm:1069-1084 | let forms bind their arguments to stack slots and drop them at the end, or leave them to the return |
| `Compilation.ArgumentsRun` | compile.scm:1091-1105 | arguments are computed in order and the operator is still found below them |
| `Compilation.ApplicationRuns` | vm/src/vm.rs:230-327 | calls of closures and of the rib primitive, variadic or not and in tail position or not, deliver the value of the call, and calls of values that are no procedures its error |
| `Compilation.ProcedureRuns` | compile.scm:1180-1197 | a lambda without free variables needs no closure; any other gets one |
| `Programs.FirstFrameEndsRun` | vm/src/vm.rs:447-458 | the first frame leads to the end of the run |
| `Programs.ProgramRuns` | vm/src/vm.rs:160-182 | a loaded program whose meaning is defined comes to its end with its value on the stack, or with its error, and at every point before the chain of continuations is exactly as long as there are non-tail calls of closures to return from |
| `Programs.RunProgram` | vm/src/vm.rs:160-182 | so it does on the collected memory, unless the heap is exhausted by live cells |
| `Loading.CodeIsAt` | vm/src/vm.rs:464-518 | where a marshalled program has been decoded, every piece of its code lies in the heap as generated code: instructions, operands, shared symbols, constants and procedures |
| `Globals.FreeIsMentioned` | compile.scm:1130-1225 | generated code mentions every global variable of its expression as a symbol |
| `Booting.BootRuns` | compile.scm:1992-2007 | the code at the start of a program gives every primitive its name and changes nothing else |
| `Lowering.EveryCodeLowers` | compile.scm:1130-1225 | all generated code whose constants are numbers, false, null and procedures can be given identities for its nops and symbols and then be marshalled |
| `WholePrograms.BootIsAt` | compile.scm:1992-2007 | the decoded program starts with naming the primitives and goes on with its own code, and all its names are symbols |
| `WholePrograms.Boots` | vm/src/vm.rs:434-462 | initialization and the naming of the primitives make the machine ready for the program, with every global variable in its symbol |
| `WholePrograms.RunCompiled` | compile.scm:2038-2068 | from an expression to its value by way of bytecode: marshalling, encoding, compressing, decompressing, decoding and running the generated code ends with the value of the expression, or with its error, however often garbage is collected, unless the heap has fewer than eight words or the last collection, or creation, left it full of live cells |
| `ExposedTests.MeansSeven` | compile.scm:1130-1225 | the program that goes wrong means seven |
| `ExposedTests.ExposedTestGoesWrong` | compile.scm:1086-1089 | its generated code ends with a symbol on the stack instead |
| `Foreign.DynamicPrimitiveSet.CollectGarbages` | dynamic/src/primitive_set.rs:67-87 | empties exactly the slots that no allocated cell names |
| `Foreign.DynamicPrimitiveSet.FindFree` | dynamic/src/primitive_set.rs:90-92 | the first free slot, if there is one |
| `Foreign.DynamicPrimitiveSet.Allocate` | dynamic/src/primitive_set.rs:94-106 | the slot is named by no allocated cell: it is the first free one, or the first that is free once the slots that no cell names have been emptied, or a new one if there is none, and nothing else changes |
| `Foreign.DynamicPrimitiveSet.Find` | dynamic/src/primitive_set.rs:181-197 | a handle always gives back the object that it was made for |
| `Foreign.DynamicPrimitiveSet.ConvertIntoScheme` | dynamic/src/primitive_set.rs:123-144 | one cell is added to the heap that is never collected, with the number of the slot and null marked as foreign; it is a handle of the object, and every other handle keeps its own, wherever the collector has moved it |
| `Foreign.SurvivalIsHonest` | vm/src/memory.rs:422-444 | a heap collection neither forges nor changes a handle |
| `Foreign.WriteIsHonest` | vm/src/memory.rs:310-327 | a write to the heap that spares the slots of handles neither forges nor changes a handle |
| `Foreign.AllocationIsHonest` | vm/src/memory.rs:206-222 | nor does the allocation of a cell that is not marked as foreign |
| `Foreign.RunKeepsOwned` | dynamic/src/primitive_set.rs:67-144 | in every run of heap writes, allocations, collections of the heap and of the table, and conversions, no handle dangles and no two handles name one slot |
| `Macros.CompiledKnowsVariables` | compile.scm:554-586 | every ellipsis of a compiled pattern knows its variables in order |
| `Macros.MatchBinds` | compile.scm:600-637 | a match binds the variables of the pattern in order, each once for each of its places |
| `MacroPatterns.MatchesIffFits` | compile.scm:600-637 | an expression matches a pattern if and only if it is an instance of it: a variable stands for anything, a constant for itself, a literal for what has its meaning, and an ellipsis for any number of elements, none included, as long as there are as many elements left as there are patterns |
| `MacroPatterns.MatchIffBinds` | compile.scm:588-637 | matches are exactly the lists of what the variables stand for in such an instance, a variable under an ellipsis standing for its values in all repetitions in order |
| `MacroTemplates.MatchIsMatch` | compile.scm:588-637 | a match of a pattern with distinct variables binds each variable once, at every depth to values of its own |
| `Macros.FillInvertsMatch` | compile.scm:639-675 | for a pattern without literals, with distinct variables and with a variable under every ellipsis, filling the pattern with its own match gives back the matched expression, at any depth of ellipses and with any number of them in a list |
| `MacroTemplates.FillExpands` | compile.scm:639-675 | filling any template gives what it stands for when each variable stands for a tree of values, one branch for each repetition, and fails exactly if the template stands for nothing |
| `MacroTemplates.CopiesAreLeast` | compile.scm:639-650 | a template under an ellipsis is copied as often as the shortest of its repeated variables has values, and it stands for nothing exactly if none of its variables is repeated |
| `MacroTemplates.PlainTemplateIsSubstituted` | compile.scm:554-586 | a template without ellipsis is filled by substitution: literals become what they mean, bound variables their values, and nothing else changes; it fails exactly if a repeated variable occurs in it |
| `MacroTemplates.EscapedTemplateIsSubstituted` | compile.scm:571-572 | what follows an ellipsis at the head of a list is filled by substitution with literals and ellipses being ordinary symbols |
| `MacroTemplates.EllipsisTemplateIsSubstituted` | compile.scm:639-675 | a template under an ellipsis is put into the list once for each repetition, its variables substituted by their values there or by the single values from outside, and what follows it is substituted once; it fails exactly if no variable under the ellipsis is repeated, if one is repeated more deeply, or if one after it is repeated |
| `MacroTemplates.EveryEllipsisRepeats` | compile.scm:574-582 | every further ellipsis after an element repeats it once more |
| `MacroRules.FirstFittingRuleApplies` | compile.scm:704-736 | a macro use is expanded by the first rule whose pattern it fits, and there is an error if it fits none |
| `MacroRules.ExpansionIsHygienic` | compile.scm:693-733 | every symbol of an expansion comes from the macro use, or is one of the new names that stand for what the template introduces, or is the meaning of a literal, so that no introduced name is captured |
| `MacroRules.CompiledGives` | compile.scm:554-586 | of its own a compiled template puts in no symbols but the meanings of literals |
| `Macros.MacroRoundTrip` | compile.scm:677-678 | so does compiling, matching and filling at the top |
| `Macros.RepeatedVariableForgets` | compile.scm:652-675 | with a repeated variable it does not |
| `Macros.EllipsisNeedsVariable` | compile.scm:639-650 | an ellipsis without variables cannot be filled |
| `Macros.LiteralForgetsName` | compile.scm:625-630 | a literal is filled with its meaning, not with the name that was matched |
| `Mappings.BalanceKeepsValues` | prelude.scm:7140-7165 | rotations keep the values in order |
| `Mappings.InsertIsSetInsertion` | prelude.scm:7120-7138 | insertion keeps the values sorted and adds the new one where it belongs, unless one that is the same is there |
| `Mappings.FindIsMembership` | prelude.scm:7081-7093 | a search finds the value that is the same exactly if there is one |
| `Mappings.FindAfterInsert` | prelude.scm:7120-7138 | after an insertion the inserted value is found and every other search is as before |
| `Mappings.InsertKeepsAA` | prelude.scm:7120-7165 | insertion, skewing and splitting keep the level invariants of AA trees |
| `Mappings.HeightIsLogarithmic` | prelude.scm:7120-7165 | two to the height is at most the square of the size plus one |
| `Mappings.ListIsValues` | prelude.scm:7108-7118 | listing gives the values in order |
| `Mappings.ListToMapping` | prelude.scm:7103-7106 | a mapping of any list is a balanced, sorted set of its values |
| `MappingNodes.Skew` | prelude.scm:7143-7152 | rotates in place as the rotation of values does |
| `MappingNodes.Split` | prelude.scm:7154-7165 | rotates in place as the rotation of values does |
| `MappingNodes.Insert` | prelude.scm:7120-7138 | inserts in place as into the tree of values, changing no node of another tree |
| `MappingNodes.Mapping.InsertValue` | prelude.scm:7095-7101 | the mapping stays a sorted, balanced set with the value added |
| `MappingNodes.Mapping.FindValue` | prelude.scm:7078-7079 | finds the value that is the same exactly if there is one |
| `MappingNodes.Mapping.ToList` | prelude.scm:7108-7109 | lists the values in order, no two the same |
| `Vectors.HeightIsLeast` | prelude.scm:1540-1546 | the height is the least for which the elements fit, a tree of each height holding a power of 64 elements |
| `Vectors.PushAppends` | prelude.scm:1575-1600 | pushing to the tree of a sequence gives the tree of the sequence with the element appended |
| `Vectors.AtIsIndex` | prelude.scm:1548-1560 | the cell of an index holds the element at the index |
| `Vectors.PutIsUpdate` | prelude.scm:1562-1563 | an assignment changes the element at the index and nothing else |
| `Vectors.BuildHolds` | prelude.scm:1643-1647 | the tree of a sequence holds its elements in order |
| `Vectors.BulkIsRoot` | compile.scm:1561-1578 | the compiler builds exactly the tree that repeated pushing builds |
| `Vectors.Vector.PushBack` | prelude.scm:1575-1591 | appends to the contents |
| `Vectors.Vector.Get` | prelude.scm:1559-1560 | reads the contents |
| `Vectors.Vector.Set` | prelude.scm:1562-1563 | updates the contents at one index |
| `Vectors.Vector.ToList` | prelude.scm:1643-1647 | joining the lists of one level after another gives the contents |
| `Vectors.ListToVector` | prelude.scm:1636-1641 | pushing a list gives a vector of it, with the tree that the compiler builds |

## Left out

- Compilation.CompileRuns: excludes tests that end with a call whose operator is computed and whose arguments make a
  closure. Whether such a program goes wrong depends on whether the branch is taken and the closure needs the cell
  later; the condition is exact for each branch (Machine.BranchKeepsIff), not for whole programs.
- Counting.EncodingUsesUpCounts: is about well-typed programs; Marshalling.MarshalledIsProgram proves that marshalling
  makes no others.
- Programs.ProgramRuns: says nothing about expressions whose meaning is undefined here, such as calls of numbers, where
  the source breaks its own assertions, nor about computations that do not end.
- Vms.RunFor: says nothing about states in which the source breaks one of its own assertions, such as taking a number
  for a pointer or walking a list that never ends.
- Depth.StepDepth: is about steps in which an instruction takes only values of its own frame and no variable is a frame.
  Compilation.CompileRuns proves this of generated code.
- Depth.RunDepth: is about runs of such steps; Programs.ProgramRuns proves it for generated code without the condition.
- Compilation.ApplicationRuns: calls of primitives other than rib have no meaning in this model, and neither have calls
  of constants other than false and null, whose cells may have any tag.
- Memories.Memory.New: is about heaps whose length is a multiple of four; with another length the last cell of a space
  would straddle its end.
- WholePrograms.RunCompiled: is about programs whose constants are numbers, false, null and procedures, and takes the
  identities of nops and symbols as given.
- MappingNodes.Insert: sets both children of a node where the source sets the one that has changed.
- Vectors.Vector.PushBack: the nodes below the root are values, so writing into their lists in place is not modelled;
  no node is shared between vectors.
- Foreign.DynamicPrimitiveSet.ConvertIntoScheme: values of registered types, which are converted and get no handle,
  are not part of this model; if the heap is exhausted the slot stays taken until the next collection of the table.
- ListCompressors.ListCompressor.FindMatch: the compressor's lists are sequences, with the position of the current
  list in the buffer made explicit instead of shared tails.
- Floating-point numbers in bytecode, and the packing of tags and indices into words; tags are natural numbers.
- Primitives other than making ribs, closures and unbinding, and the dispatch of errors to handlers.
- Metadata as constants, tree shaking, library and macro expansion before code generation.
- Let forms whose numbers of parameters and arguments differ, and bodies of more than one expression in them.
- The input iterator of the compressor ends once and for all; the source does not say what happens otherwise.
- The encoder's integers are unbounded, as in its host.
- MacroRules.ExpansionIsHygienic: takes the new names as given; that they differ from all others is up to the source of
  uninterned symbols. Denotations are resolved by a map of local names only.
- MacroTemplates.EscapedTemplateIsSubstituted: an ellipsis at the head of a list with nothing after it, which the source
  rejects, is compiled to null.
