# Verification of the Lua core

Dafny models of the parts of the Lua 5.4.7 sources (`engine/3rdparty/lua/src`) whose correctness is hardest to see:
the incremental garbage collector, the code generator for conditions, tables, the pattern matcher, two pairs of writer
and reader, operator precedence, upvalues on a stack that moves, line information and sorting.
Run `dafny verify dfyconfig.toml` to check everything.

Where the C code changes state in place, the model is a class with the same fields and methods with the same
branches and loops; each is proved against a specification on values, and the lemmas are about that.

- **Garbage collector** (`Gc*.dfy`). `Collector` has the fields of `global_State` that incremental mode uses: colours,
  two whites, the five gray lists, `twups`, the three lists of owned objects and the position of the sweep. A program
  is a list of commands, in any order: its own (allocation, loads, stores with the barrier of the kind of object,
  stores to the stack without one, metatables and weak modes, upvalues, coroutines) and steps of the collector.
  `Valid(garbage)` is the invariant: no black object refers to a white one, gray objects are in one list each, the
  objects declared `garbage` are not referred to by the others. Weak tables of all kinds, ephemerons, finalizers,
  open upvalues and the resurrection of interned strings are in the model. `GcForced` is the reference: the
  least set that is closed under what tracing demands (a marked key marks its value, for example).
- **Code generator** (`JumpThreading.dfy`, `Exp*.dfy`). `FuncState` emits code for constants, locals, upvalues, `not`,
  `and`, `or` and comparisons as `lcode.c` does, with jump lists threaded through the instructions. The reference is
  `Eval`, the value of an expression in Lua; instructions mean what `lopcodes.h` says.
- **Tables** (`Table*.dfy`). `Table` has the array part with its length hint `alimit`, and the hash part, a chained
  scatter table with Brent's variation. The reference is a finite map.
- **Patterns** (`Pattern*.dfy`). `MatchState` is the backtracking matcher, which undoes captures.
  There are two references: the list of all ways to match in order of priority (`Choices`), and what it means to
  match, without an order (`Derives`). `PatternFacts` says what the single items mean, apart from both.
- **Quoted strings** (`QuotedStrings.dfy`, `EscapeFacts.dfy`). `AddQuoted` is the writer of `%q`, `LexState` the
  reader of the lexer; `EscapeFacts` has the codes of the manual.
- **Binary data** (`Pack*.dfy`). `Header` reads formats, `StrPack` and `StrUnpack` go through them; `PackFacts` says
  which letter means what and which byte is where.
- **Operator precedence** (`Precedence.dfy`). `LexState.Subexpr` parses by the table of priorities. The reference
  is what trees can be written as, parentheses included; the levels of operators are those of the manual.
- **Upvalues and to-be-closed variables** (`Upvalues.dfy`). Pointers into the stack are addresses, which change when it
  is reallocated; to-be-closed variables are linked by short differences, with dummy nodes for longer ones.
- **Line information** (`LineInfo.dfy`). `FuncState` writes differences and now and then absolute entries, and
  reads them back. The reference is the list of lines that have been given.
- **Sorting** (`Sorting.dfy`). Quicksort in place, for order functions that may answer anything.

## Model

Line numbers are those of Lua's own files. "Invariant" is `Collector.Valid` for the collector, `Table.Valid` for tables.

| member | source | states |
|---|---|---|
| `GcCollector.Collector.Run` | engine/3rdparty/lua/src/lgc.c:1585-1645 | for every list of commands of the program and steps of the collector, in any order: the invariant holds, every object the program can reach exists and is none of the declared garbage, and no step takes away anything that strong references lead to; the run goes on to the end unless a step would enter the sweep while a table in `allweak` has an unmarked metatable, which is when it stops |
| `GcCollector.Collector.Cycle` | engine/3rdparty/lua/src/lgc.c:403-409 | what is unreachable when a cycle starts, also from objects with finalizers, is freed before the collector pauses again, whatever the program does meanwhile, except strings that are interned again |
| `GcCollector.Collector.Execute` | engine/3rdparty/lua/src/lgc.c:208-240 | every command, its barrier included, keeps the invariant and has just its effect on registers, fields, metatables, upvalues, threads and globals (`Does`, `Leaves`); at most interned strings leave the garbage |
| `GcCollector.Collector.SingleStep` | engine/3rdparty/lua/src/lgc.c:1585-1645 | no step cuts a strong reference that the program's roots lead to, a sweep step changes no live object, and only the atomic phase can lose a metatable; a step in the last phase hands up to ten objects to their finalizers, in order, and the collector pauses only when none is left or in an emergency |
| `GcCollector.Collector.FinishCycle` | engine/3rdparty/lua/src/lgc.c:1629-1640 | whatever the program does in between, every object that was to be finalized when the sweep ended is handed over once, in order, before the collector pauses, which it does after at most two steps and one for every ten objects |
| `GcCollector.Collector.AtomicStep` | engine/3rdparty/lua/src/lgc.c:1525-1565 | what is alive after the atomic phase is the least set that the roots, the marked objects and the objects with finalizers force, strings aside; live objects refer only to live ones if and only if `Loses()`, computed from the state before, is empty; just the objects with finalizers that the roots and the marked objects do not force are to be finalized, in their order |
| `GcCollector.Collector.HeldIsNear` | engine/3rdparty/lua/src/lgc.c:974-991 | no object that the program holds by strong references is among those to be finalized then, unless a table in `allweak` has an unmarked metatable |
| `GcCollector.Collector.ConvergeEphemerons` | engine/3rdparty/lua/src/lgc.c:691-710 | terminates, since every round but the last marks an object, and then every entry of an ephemeron table with a marked key has a marked value |
| `GcCollector.Collector.Atomic` | engine/3rdparty/lua/src/lgc.c:1525-1565 | marks are closed under tracing before weak entries are cleared and again after resurrection; in the end marked objects refer to marked ones only, also from weak tables, and each object with a finalizer is in one of the two lists |
| `GcCollector.Collector.Barrier` | engine/3rdparty/lua/src/lgc.c:208-223 | after a store into a black object the forward barrier restores the invariant, in all phases |
| `GcCollector.Collector.SweepList` | engine/3rdparty/lua/src/lgc.c:824-845 | goes over just the next objects of the list, frees the dead ones and changes no live one |
| `GcHeld.ModesAreRespected` | engine/3rdparty/lua/src/lgc.c:542-559 | an object holds by the weak mode the program sees just what the collector respects, except tables whose mode has changed since the collector put them into `allweak`: of those it respects the metatable only |
| `GcMissed.LosesMetatable` | engine/3rdparty/lua/src/lgc.c:542-559 | a run from the initial state after which a table in a register has a metatable that has been freed |
| `GcMissed.LosesEntry` | engine/3rdparty/lua/src/lgc.c:725-762 | a run from the initial state after which a strong table in a register has lost an entry |
| `GcProgram.StoredIsRead` | engine/3rdparty/lua/src/lapi.c:896-906 | what a store through any kind of object has written is read back there, and no other object changes but the thread whose slot an open upvalue is for |
| `GcProgram.UpvaluesShare` | engine/3rdparty/lua/src/lfunc.c:87-99 | open upvalues of one stack slot share what is written through one of them, others keep their values |
| `GcCollector.Collector.Capture` | engine/3rdparty/lua/src/lfunc.c:87-99 | the upvalue for a stack slot, found or new, is open on that slot and the invariant stays |
| `GcCollector.Collector.DoClose` | engine/3rdparty/lua/src/lfunc.c:193-207 | closing upvalues, also in the middle of marking, keeps the invariant and the value of every upvalue |
| `JumpThreading.Finish` | engine/3rdparty/lua/src/lcode.c:1846-1874 | the last pass over a function: from each place execution settles where it did before, cycles of jumps stay cycles, in spite of the 100-hop limit and targets already rewritten; every jump fits into its 25 bits; every return gives back what it did before, closes variables just if the function needs it, and leaves from the place where the function was called |
| `JumpThreading.SameTrace` | engine/3rdparty/lua/src/lcode.c:1829-1839 | code that settles alike has the same sequences of instructions other than jumps, and diverges in the same places |
| `JumpThreading.FinishReturnCompletes` | engine/3rdparty/lua/src/lopcodes.h:352-355 | run as the interpreter runs returns, on the frame that entering the function makes, a completed return or tail call hands over the same values, closes if and only if something is to be closed, and puts the function back to where it was called, for any number of arguments; operand C is set in functions with varargs only |
| `ExpGen.FuncState.AssignLocals` | engine/3rdparty/lua/src/lcode.c:1049-1058 | a sequence of assignments to locals: the code, run from any registers as it is decoded from its fields, leaves in the locals what Lua says, earlier code is untouched, and all operands fit |
| `ExpGen.FuncState.PushExp` | engine/3rdparty/lua/src/lcode.c:943-950 | the code of an expression, run from any registers, falls out at its end with the value of the expression in the next register and all registers below as they were; all operands fit into their fields |
| `ExpGen.FuncState.Expr` | engine/3rdparty/lua/src/lcode.c:1636-1721 | for every expression the descriptor and its two jump lists stand for the value of the expression: each way to leave the code is one with that value |
| `ExpGen.FuncState.PatchListAux` | engine/3rdparty/lua/src/lcode.c:288-299 | every jump of a list, and the test before it, is patched as it should be, whether it keeps a value or not, and no other instruction changes |
| `ExpGen.FuncState.Concat` | engine/3rdparty/lua/src/lcode.c:181-193 | the concatenated list has the jumps of the first list and then those of the second |
| `ExpCode.Decoded` | engine/3rdparty/lua/src/lcode.c:655-669 | immediates and constant indices within the ranges written out in `Encodable` are read from their 8 or 17 bits as they were written |
| `ExpCode.Conditions` | engine/3rdparty/lua/src/lcode.c:1187-1215 | only nil and false are false; `and` and `or` give one of their operands |
| `ExpCode.Extend` | engine/3rdparty/lua/src/lcode.c:167-176 | running code that was extended, and some of whose open jumps were patched, is running the old code and going on where it stopped |
| `ExpMeaning.Combine` | engine/3rdparty/lua/src/lcode.c:1705-1721 | if the first operand's code goes on only when it decides nothing, joining the lists gives code that means `and` or `or` |
| `ExpMeaning.CloseMeans` | engine/3rdparty/lua/src/lcode.c:915-937 | with the lists patched and the two booleans added, all ways end with the value in the register |
| `ExpMeaning.NotMeans` | engine/3rdparty/lua/src/lcode.c:1187-1215 | with the lists swapped and tests no longer keeping values, the code means the negation |
| `Tables.Table.Run` | engine/3rdparty/lua/src/ltable.c:803-851 | every sequence of operations gives the answers that a finite map gives, errors for nil and NaN keys included; from an empty table, a read answers the last value assigned to a raw-equal key, or nil |
| `Tables.SameKeys` | engine/3rdparty/lua/src/ltable.c:668-680 | two keys are the same to the table if and only if they are raw equal, so a float meets an integer just if it has its value |
| `Tables.MapHasLastPut` | engine/3rdparty/lua/src/ltable.c:803-842 | the map has for every key the last value assigned to a raw-equal one |
| `Tables.AnswersAreRight` | engine/3rdparty/lua/src/ltable.c:803-851 | the answers of the map are the last assignments, and a length is a border of them |
| `Tables.Table.Step` | engine/3rdparty/lua/src/ltable.c:803-842 | one operation keeps the invariant and does what it does to the map |
| `Tables.Table.GetInt` | engine/3rdparty/lua/src/ltable.c:745-767 | finds the slot of an integer key, in the array also beyond the hint, and the hint it leaves stands for the same real size |
| `Tables.Table.GetN` | engine/3rdparty/lua/src/ltable.c:938-984 | a border: nil follows it, and it is zero or there is a value at it |
| `Tables.Table.NewKey` | engine/3rdparty/lua/src/ltable.c:665-720 | a new key gets a node by Brent's variation, the chains stay acyclic and meet nowhere, and each key is still found from its main position |
| `Tables.Table.Rehash` | engine/3rdparty/lua/src/ltable.c:598-631 | no entry is lost, the array size is the best one for the keys with the new one, and there is room for the new key, so that there is no second rehash |
| `Tables.Table.Resize` | engine/3rdparty/lua/src/ltable.c:553-587 | all entries survive growing and shrinking, including those that leave the array |
| `TableNodes.MovedOk` | engine/3rdparty/lua/src/ltable.c:685-702 | moving a colliding node out of the way keeps all chains, with one link changed |
| `TableCounts.ComputeSizes` | engine/3rdparty/lua/src/ltable.c:391-410 | the largest power of two more than half of whose slots would be used, and how many keys go there |
| `PatternMatch.MatchState.Find` | engine/3rdparty/lua/src/lstrlib.c:773-816 | the first place where the pattern matches, with the match that comes first in priority; "nowhere" only if there is none in any way; errors only if the pattern runs into them |
| `PatternMatch.MatchState.Match` | engine/3rdparty/lua/src/lstrlib.c:570-669 | the first of all choices; if there is none, captures are as they were; the recursion is no deeper than the pattern has items |
| `Patterns.ChoicesDerive` | engine/3rdparty/lua/src/lstrlib.c:506-568 | the list of choices has just the matches there are |
| `PatternMatch.MatchState.MatchBracketClass` | engine/3rdparty/lua/src/lstrlib.c:447-467 | a character fits a set if and only if it fits an element of it, or none if it is negated |
| `PatternFacts.FindFrontier` | engine/3rdparty/lua/src/lstrlib.c:602-615 | a pattern that is just the frontier of a set without the zero character is found at the first character of the set, and nowhere if and only if there is none |
| `PatternFacts.FrontierMeaning` | engine/3rdparty/lua/src/lstrlib.c:602-615 | a frontier is passed if and only if the character before is not in the set and the next one is, the ends counting as zeros |
| `PatternFacts.FrontierAtEnd` | engine/3rdparty/lua/src/lstrlib.c:602-615 | if the zero character is in the set, there is a frontier at the end just if the last character is not in it |
| `PatternFacts.BackMeaning` | engine/3rdparty/lua/src/lstrlib.c:616-624 | `%1` takes the same text as the first capture, and so on; an unfinished capture matches nothing |
| `PatternFacts.OpenMeaning` | engine/3rdparty/lua/src/lstrlib.c:534-545 | an opening parenthesis begins a capture here, `()` captures the position, and there are at most 32 |
| `PatternFacts.CloseMeaning` | engine/3rdparty/lua/src/lstrlib.c:548-556 | a closing parenthesis ends the last open capture, with the text since it began |
| `PatternFacts.RepetitionMeaning` | engine/3rdparty/lua/src/lstrlib.c:629-664 | each suffix takes just as many characters of the set as it says |
| `PatternFacts.RepetitionOrder` | engine/3rdparty/lua/src/lstrlib.c:506-531 | `*` tries all lengths from the longest down, `-` from the shortest up, `?` one before none |
| `PatternFacts.ClassMeaning` | engine/3rdparty/lua/src/lstrlib.c:427-444 | a letter stands for its class, the capital for the complement, other characters for themselves |
| `PatternFacts.SetMeaning` | engine/3rdparty/lua/src/lstrlib.c:447-467 | a set has its ranges with both ends, its classes and its characters, `^` makes it the complement |
| `PatternFacts.LiteralMeaning` | engine/3rdparty/lua/src/lstrlib.c:629-664 | characters matched one by one match just their own text |
| `PatternFacts.PlainPattern` | engine/3rdparty/lua/src/lstrlib.c:570-669 | a pattern without special characters is read as its own text |
| `PatternFacts.Sets` | engine/3rdparty/lua/src/lstrlib.c:397-420 | how sets are written, with `]` first, `-` last and `^` |
| `PatternFacts.Errors` | engine/3rdparty/lua/src/lstrlib.c:397-420 | the patterns that are ill-formed |
| `QuotedStrings.QuotedReadsBack` | engine/3rdparty/lua/src/lstrlib.c:1122-1142 | a quoted string is read back as it was, whatever follows it, if and only if it has no carriage return or that counts as a control character |
| `QuotedStrings.WriteAndRead` | engine/3rdparty/lua/src/llex.c:382-442 | the same for the writer followed by the reader |
| `QuotedStrings.LexState.ReadString` | engine/3rdparty/lua/src/llex.c:382-442 | the lexer decodes every string, ill-formed ones included, as the grammar of escapes says, and counts its lines |
| `EscapeFacts.ReadOne` | engine/3rdparty/lua/src/llex.c:395-403 | a literal of one escape sequence with a letter, a quote or a backslash is read as the code of section 3.1 of the manual |
| `EscapeFacts.HexCode` | engine/3rdparty/lua/src/llex.c:335-340 | two hexadecimal digits of either case give their number |
| `EscapeFacts.DecimalCode` | engine/3rdparty/lua/src/llex.c:369-379 | up to three digits give their number, or an error above 255 |
| `EscapeFacts.WhiteSpace` | engine/3rdparty/lua/src/llex.c:411-419 | `\z` skips all white space and nothing else |
| `EscapeFacts.Utf8Code` | engine/3rdparty/lua/src/llex.c:343-359 | any number of digits between braces give the encoding of their number, or an error from 2^31 on |
| `EscapeFacts.Utf8Decodes` | engine/3rdparty/lua/src/lobject.c:323-338 | the bytes of a code say in the first one how many they are, their bits are the code, and fewer bytes would not do |
| `QuotedStrings.LexState.Utf8Esc` | engine/3rdparty/lua/src/lobject.c:323-338 | the bytes of a code point up to 2^31, made from the last to the first, are its encoding |
| `Packing.PackAndUnpack` | engine/3rdparty/lua/src/lstrlib.c:1601-1697 | for every format and arguments: what is packed is unpacked by the same format as the values it was made from, fixed-size strings filled up with zeros, and the next position is behind the data; if the format has a size, that is the length |
| `Packing.RoundTrip` | engine/3rdparty/lua/src/lstrlib.c:1754-1825 | the same from any place of the format and of the data on, with the settings and the alignment there |
| `Packing.ValuesAreGiven` | engine/3rdparty/lua/src/lstrlib.c:1618-1690 | the values that come back are those of the arguments, in their order |
| `Packing.SizeIsRight` | engine/3rdparty/lua/src/lstrlib.c:1700-1716 | the size announced for a format is that of all data packed by it |
| `Packing.IntRoundTrip` | engine/3rdparty/lua/src/lstrlib.c:1568-1582 | integers that fit are read back from 1 to 16 bytes, unsigned ones as the same 64 bits |
| `Packing.PackInt` | engine/3rdparty/lua/src/lstrlib.c:1568-1582 | the buffer gets the bytes of the number in the right order, extended by its sign |
| `Packing.UnpackInt` | engine/3rdparty/lua/src/lstrlib.c:1728-1751 | the number that the bytes stand for, or an error if it does not fit into an integer |
| `PackFacts.IntegerBytes` | engine/3rdparty/lua/src/lstrlib.c:1568-1582 | byte by byte: an integer is in two's complement, the lowest byte first or last |
| `PackFacts.OneInteger` | engine/3rdparty/lua/src/lstrlib.c:1601-1634 | for every letter with a fixed size: after `<` the lowest byte comes first, after `>` last, and there is an error if and only if the integer is out of range |
| `PackFacts.ReadJustWritten` | engine/3rdparty/lua/src/lstrlib.c:1728-1751 | bytes are read as an integer if and only if they are what is written for it |
| `PackFacts.WhatDoesNotFit` | engine/3rdparty/lua/src/lstrlib.c:1618-1686 | the errors of packing, each with the exact range |
| `PackFacts.TextBytes` | engine/3rdparty/lua/src/lstrlib.c:1659-1688 | strings are filled up with zeros, have a zero after them, or their length before them |
| `PackFacts.FloatBytes` | engine/3rdparty/lua/src/lstrlib.c:1635-1658 | floats have their bytes in memory, in the order asked for |
| `PackFacts.PaddingIsZero` | engine/3rdparty/lua/src/lstrlib.c:1612-1616 | the padding before a value is of zeros |
| `PackFormat.PaddingAligns` | engine/3rdparty/lua/src/lstrlib.c:1541-1560 | padding goes to the next multiple of the alignment and no further |
| `PackFormat.Header.GetDetails` | engine/3rdparty/lua/src/lstrlib.c:1541-1560 | each option with its size, padding, new settings and error, numerals read only as far as they cannot overflow |
| `PackFacts.IntegerLetters` | engine/3rdparty/lua/src/lstrlib.c:1488-1508 | the sizes of the letters for integers, capitals for unsigned ones |
| `PackFacts.SettingLetters` | engine/3rdparty/lua/src/lstrlib.c:1517-1525 | what `<`, `>`, `=` and `!` set, and that nothing else changes |
| `PackFacts.Numbers` | engine/3rdparty/lua/src/lstrlib.c:1506-1525 | a number after a letter is its size, from 1 to 16 for integers, lengths and alignments |
| `Precedence.ParsesJustTheWellFormed` | engine/3rdparty/lua/src/lparser.c:1260-1287 | a tree is parsed from a place if and only if it is written there, its operators bind by their priorities, and what follows does not belong to it |
| `Precedence.Unambiguous` | engine/3rdparty/lua/src/lparser.c:1237-1249 | no two well-formed trees are written in the same way |
| `Precedence.ParsesBack` | engine/3rdparty/lua/src/lparser.c:1290-1292 | every expression is parsed back from how it is written with as few parentheses as possible |
| `Precedence.MinimalIsLeast` | engine/3rdparty/lua/src/lparser.c:1237-1252 | no way to write an expression that is parsed back has fewer parentheses |
| `Precedence.ThreeOperands` | engine/3rdparty/lua/src/lparser.c:1237-1249 | for all operators: `x op y op' z` is parsed by the levels of section 3.4.8 of the manual, and on the same level from the left, but from the right for `..` and `^` |
| `Precedence.PrefixFirst` | engine/3rdparty/lua/src/lparser.c:1252-1272 | a unary operator binds more than all binary ones but `^` |
| `Precedence.PrefixSecond` | engine/3rdparty/lua/src/lparser.c:1252-1272 | the second operand of any operator may begin with a unary one |
| `Precedence.LexState.Subexpr` | engine/3rdparty/lua/src/lparser.c:1260-1287 | the parser's loop finds what the grammar says, and returns the first operator that does not belong to it |
| `Upvalues.LuaState.ReallocStack` | engine/3rdparty/lua/src/ldo.c:165-235 | after the stack has moved or has not, every upvalue, call frame and link is for the same place, and no upvalue has another value |
| `Upvalues.LuaState.FindUpVal` | engine/3rdparty/lua/src/lfunc.c:65-99 | the upvalue for a place, a new one only if there is none; the list goes down strictly |
| `Upvalues.LuaState.SetUpVal` | engine/3rdparty/lua/src/lfunc.c:65-80 | what is written through an upvalue it alone sees, and the stack while it is open |
| `Upvalues.LuaState.CloseUpVal` | engine/3rdparty/lua/src/lfunc.c:193-207 | just the upvalues from the level on are closed, and no value changes |
| `Upvalues.LuaState.NewTbcUpVal` | engine/3rdparty/lua/src/lfunc.c:168-179 | one more variable to be closed, however far above the last one; false values are not added |
| `Upvalues.LuaState.PopTbcList` | engine/3rdparty/lua/src/lfunc.c:213-219 | the last variable leaves the list, the others stay |
| `Upvalues.LuaState.Close` | engine/3rdparty/lua/src/lfunc.c:227-237 | just the variables from the level on are closed, the last ones first, although the stack moves in between |
| `LineInfo.FuncState.Run` | engine/3rdparty/lua/src/lcode.c:329-390 | after any sequence of emitting, changing the line of, and replacing the last instruction, the information stands for the lines given |
| `LineInfo.FuncState.GetFuncLine` | engine/3rdparty/lua/src/ldebug.c:86-95 | the line of every instruction is the one that was given |
| `LineInfo.FuncState.GetBaseLine` | engine/3rdparty/lua/src/ldebug.c:60-78 | the estimate is a lower bound of the right entry, and the entry found is the last one that is not behind the instruction |
| `LineInfo.FuncState.ChangedLine` | engine/3rdparty/lua/src/ldebug.c:864-882 | true if and only if the two instructions are on different lines |
| `Sorting.Sorter.AuxSort` | engine/3rdparty/lua/src/ltablib.c:345-396 | whatever the order function answers, it ends, permutes the interval, touches nothing else and calls itself no deeper than the logarithm of the length; for a strict weak order there is no error and the interval is sorted |
| `Sorting.Sorter.Partition` | engine/3rdparty/lua/src/ltablib.c:298-328 | stays inside the interval even if the order function makes no sense; otherwise the pivot is put where nothing before it is greater and nothing behind it is less |

## Findings

- **The collector can free a metatable that is in use.** The propagate phase puts a table with weak keys and values
  into the list `allweak` (lgc.c:556-557), and does not visit it again in the cycle. The table is gray then,
  so a metatable that it gets afterwards meets no barrier (lgc.c:208-223 is for black objects only). If nothing else
  refers to the new metatable when the atomic phase comes, it is not marked, and the sweep frees it; the atomic phase
  only clears the entries of the table (lgc.c:1544-1560). `GcMissed.LosesMetatable` is such a run, command by command:
  make an all-weak table, start a cycle, go on until the gray list is empty, make an object, give it to the
  table as its metatable, drop it from the stack, and let the cycle end. The condition is exact: the atomic step keeps
  references good if and only if the metatables of the tables in `allweak` are in the least closed set
  (`AtomicStep`, with `Loses`). No run can lose anything unless a table in `allweak` has an unmarked metatable when the
  sweep is entered (`Run`, with `MayLose`), which can be tested before the step.
- **It can drop entries of a table that is no longer weak.** A table in that list whose mode changes still has its
  entries cleared at the end of the cycle. `GcMissed.LosesEntry` is such a run: the table has become strong, and
  the entry stored after that is gone. Nothing dangles then; `GcHeld.ModesAreRespected` says which references the
  collector does not respect.
- **`%q` relies on the locale.** A carriage return is only escaped if `iscntrl` says that it is a control
  character. Otherwise it is written as it is, and the lexer reads a newline.

## Left out

- GcCollector.Collector.Run: stops at the first step that would enter the sweep while a table in `allweak` has an unmarked metatable, although the metatable may still be found in the atomic phase; `AtomicStep` has the exact condition.
- GcCollector.Collector.Barrier: the barriers of generational mode, with ages, touched objects and minor collections, are not in the model.
- Pacing of the collector: how many steps are taken at a time, and the work units counted for that.
- A full collection that starts in the middle of marking (`fullinc` entering the sweep with marks thrown away).
- The bodies of finalizers are commands of the program; errors in them are not modelled.
- Long strings are not told from short ones; every string can be handed out again by the string table, whose resizing is left out.
- A coroutine is resumed and left by one command each; the chain of callers is not kept.
- ExpGen.FuncState.Expr: does not model floats, arithmetic, concatenation, calls, indexing and varargs; what is not a condition goes to a register in the same way.
- ExpGen.FuncState.PushExp: does not model the limits on registers, constants and jump offsets, which stop compilation with an error, nor the cache of constants in a table (a constant is found or added).
- Tables.Table.Run: does not model `next`, allocation failure or sizes beyond those that fit; floats are reals and infinities are left out.
- Tables.Table.Resize: the sizes asked for must hold the entries, as those of all callers do; with less room the C code would rehash while it reinserts.
- PatternMatch.MatchState.Find: `gmatch`, `gsub` and the search without special characters are left out; the classes of the locale are a parameter.
- QuotedStrings.LexState.ReadString: texts of error messages, the limit on lines and the growth of the buffer are left out.
- Packing.PackAndUnpack: sizes are those of a machine with 64-bit longs and pointers; what arguments convert to, and the conversions between floats of different sizes, are parameters.
- Precedence.LexState.Subexpr: operands are names and parentheses; the limit on nesting is not modelled.
- Upvalues.LuaState.Close: a closing method does nothing but move the stack; metamethods and errors are left out, and so are the sizes that the stack is given.
- LineInfo.FuncState.RemoveLastInstruction: an instruction with an absolute entry that is removed must be replaced before another one is removed, as all callers do.
- Sorting.Sorter.AuxSort: order functions that raise errors or change the table are not modelled.
