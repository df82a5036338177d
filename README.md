# VM translator: a verified model

This project models the core of a Hack VM-to-assembly translator, the back end of the nand2tetris course. It has three parts:

- **Command.** One line of VM code becomes a command with a type and up to two operands. Validating setters check the line in a fixed order.
- **Parser.** It cleans a file's lines in place, dropping comments and blank lines, and walks the result one command at a time.
- **CodeWriter.** It turns each command into Hack assembly lines, covering:
  - stack arithmetic and comparisons;
  - push and pop over the eight memory segments;
  - labels and jumps scoped to the current function;
  - function entry, call and return;
  - the bootstrap code written when a whole directory is translated.

The model is split into modules:

| module | file | models |
|---|---|---|
| `Wrappers` | wrappers.dfy | `Option`, `Result`, `Outcome`. The source's exceptions are failure values. |
| `Text` | text.dfy | The string operations the source relies on: decimal rendering, `int()`, `split(' ')`, `str.replace`, `str.strip`. |
| `Commands` | commands.dfy | The `Command` record, its command-type map and its setters and getters (`Command.py`). |
| `Parsing` | parsing.dfy | `clean_line`, `is_blank`, `clean_file` (in place, on a `LineList` object) and the `Parser` cursor class (`Parser.py`). |
| `Listing` | listing.dfy | The vocabulary used to state what generated code does. |
| `AsmCode` | asm_code.dfy | The pure helpers of `CodeWriter.py`: `SEGMENTS_MAPPER`, `get_ram_code`, the `translate_*` helpers, and the code blocks of label, goto, if-goto, function, call, return and bootstrap. It also holds the choice of the output file name. |
| `CodeWriting` | code_writer.dfy | The `CodeWriter` class. Its fields are those of the source, and its output file is the sequence of lines written so far. |

The `Listing` vocabulary has four parts:

- `Events` lists the register events of a listing, in program order. An event is an instruction acting on a register that the line just before it names (`@SP`, `@LCL`, `@ARG`, `@THIS` or `@THAT`): `M=M+1` or `AM=M+1` increments it, `M=M-1` or `AM=M-1` decrements it, `D=M` or `A=M` reads it, and `M=D` writes it. An access through an address computed at run time is not an event. The one place this matters is the final store of a pop, which `AsmCode.PopPointerStores` covers for the pointer segment.
- `StackEffect` is the net change of SP those events make.
- `Declared` lists the labels declared by `(X)` lines.
- `Run` executes the few instructions of a pop tail on a 16-bit machine.

The writer has a ghost list `generated` holding every label it has made from its two counters. Its invariant `Valid` says these labels are all distinct and were each made from a counter value already handed out. Every writing method keeps that invariant.

The writer's methods mirror the source's steps:

- `AssembleFunction`, the part of `write_function` that builds its lines, zero-initialises locals in a `for` loop.
- `AssembleCall`, the part of `write_call` that builds its lines, saves the caller's frame in a `for` loop over the four segments.
- `clean_file` edits its list in place with a `while` loop.

Each method's `ensures` ties its new state to specification functions: the code blocks of `AsmCode`, `Commands.Parse` for `Parser.Advance`, `Parsing.Cleaned` for `clean_file`, and `CodeWriting.InitCode`, `Logged` and `Written` for the writer's output. Lemmas prove what those functions mean.

Where the source handles a missing value by raising, the model returns a failure. Examples are a `None` index from a two-word `push`, `range(None)` and `None + 5`. State the source changes before raising is changed in the model too:

- `write_call` has already advanced its return counter;
- `write_function` has already made the function current;
- every writer has already logged the VM command.

Two source behaviours are kept as written:

- `is_arithmetic_command` looks a command *type* name up among the VM keywords, so it is never true (`Commands.IsArithmeticCommandNeverHolds`). An arithmetic command's first operand is therefore the word itself.
- The bootstrap comment reads `Boostrap code`.

## Model

| member | source | states |
|---|---|---|
| `Text.NatToString` | VMTranslator/CodeWriter.py:229-237 | A number rendered as an f-string is a non-empty string of decimal digits, one digit exactly below 10, with no leading zero except for 0 itself. |
| `Text.DigitsValueOfNatToString` | VMTranslator/CodeWriter.py:229-237 | Reading the rendered digits back gives the number. |
| `Text.NatToStringInjective` | VMTranslator/CodeWriter.py:385-410 | Different counter values render differently, which makes generated labels distinct. |
| `Text.ParseIntOfNatToString` | VMTranslator/Command.py:97-107 | `int()` reads a rendered number back, with or without a minus sign. |
| `Text.ParseInt` | VMTranslator/Command.py:101-102 | Defines `int()` on an operand: an optional sign and decimal digits; a result exists only for a non-empty string. `Text.ParseIntOfNatToString` reads rendered numbers back. |
| `Text.Split` | VMTranslator/Command.py:36-61 | `split(' ')` gives at least one word, and no word contains the separator. |
| `Text.JoinSplit` | VMTranslator/Command.py:36-61 | Joining the words of a split with the separator gives the line back. |
| `Text.SplitJoin` | VMTranslator/Command.py:36-61 | Splitting a join of separator-free words gives the words back. |
| `Text.ReplaceDotVmSuffix` | VMTranslator/CodeWriter.py:22-23 | Replacing `.vm` in a path ending in `.vm` replaces the final suffix too. |
| `Text.ReplaceDotVmNoDot` | VMTranslator/CodeWriter.py:102-104 | A dot-free name is unchanged by the `.vm` replacement. |
| `Text.Replace` | VMTranslator/CodeWriter.py:22-23 | Defines `str.replace`: every non-overlapping match, scanning left to right, is replaced. `Text.ReplaceDotVmSuffix` and `Text.ReplaceDotVmNoDot` state its effect on `.vm`. |
| `Text.TrimStart` | VMTranslator/Parser.py:97-103 | Left stripping removes a whitespace-only prefix and leaves a suffix that does not start with whitespace. |
| `Text.TrimEnd` | VMTranslator/Parser.py:97-103 | Right stripping removes a whitespace-only suffix and leaves a prefix that does not end with whitespace. |
| `Text.Strip` | VMTranslator/Parser.py:102 | Defines `str.strip()` as left then right stripping of whitespace. `Text.StripIdempotent`, `Text.StripIsSlice` and `Text.StripEmptyIffAllSpace` state its properties. |
| `Text.StripIdempotent` | VMTranslator/Parser.py:97-103 | Stripping twice is stripping once. |
| `Text.StripIsSlice` | VMTranslator/Parser.py:97-103 | A stripped string is a contiguous slice of the original. |
| `Text.StripEmptyIffAllSpace` | VMTranslator/Parser.py:106-111 | A string strips to empty exactly when it is all whitespace. |
| `Commands.SetCommandType` | VMTranslator/Command.py:67-71 | The command-type setter succeeds exactly for a key of the command-type map and yields that key's type. |
| `Commands.IsArithmeticCommandNeverHolds` | VMTranslator/Command.py:88-89 | The arithmetic check on a command type is never true. |
| `Commands.SetArg1` | VMTranslator/Command.py:79-86 | The first-operand setter fails exactly for a return command and otherwise stores the word. |
| `Commands.SetArg2` | VMTranslator/Command.py:97-107 | The second-operand setter succeeds exactly for push, pop, function and call with a non-negative integer, and stores that integer. |
| `Commands.Arg1` | VMTranslator/Command.py:73-77 | The first-operand getter fails exactly for a return command and otherwise returns the stored operand. |
| `Commands.Arg2` | VMTranslator/Command.py:91-95 | The second-operand getter fails exactly outside the whitelist and otherwise returns the stored operand. |
| `Commands.ParseCharacterised` | VMTranslator/Command.py:36-61 | A line parses exactly when its words form an accepted command, independent of the order of the checks, and then to the command those words denote. |
| `Commands.UnknownFirstWordFails` | VMTranslator/Command.py:36-61 | An unknown first word fails with an unknown-command error, and only such a word does. |
| `Commands.ThirdWordCheckedBeforeWordCount` | VMTranslator/Command.py:50-61 | With four or more words, a non-whitelisted type fails on its second operand. A whitelisted type with a valid index fails on the word count. |
| `Commands.ParseIsWellFormed` | VMTranslator/Command.py:36-61 | Every parsed command is well formed: an arithmetic word, a bare return, or a keyword with a space-free operand. |
| `Commands.ParseFormat` | VMTranslator/Command.py:36-61 | Writing a well-formed command as a VM line and parsing it gives the command back. |
| `Commands.Parse` | VMTranslator/Command.py:36-61 | Defines `Command.__init__`: split on spaces, then the setters run in the source's order. `Commands.ParseCharacterised` and `Commands.ParseFormat` state what it accepts and returns. |
| `Parsing.FromNewline` | VMTranslator/Parser.py:97-103 | What `.*` leaves is the suffix starting at the first newline. The part removed contains no newline, and nothing is left when there is no newline. |
| `Parsing.DropComments` | VMTranslator/Parser.py:101 | Defines `re.sub('//.*', "", line)`. `Parsing.DropCommentsLeavesNoMarker`, `DropCommentsWithoutMarker` and `DropCommentsCutsAtFirstMarker` state its properties. |
| `Parsing.DropCommentsLeavesNoMarker` | VMTranslator/Parser.py:97-103 | After comments are removed, no `//` remains. |
| `Parsing.DropCommentsWithoutMarker` | VMTranslator/Parser.py:97-103 | A line without `//` is unchanged by comment removal. |
| `Parsing.DropCommentsCutsAtFirstMarker` | VMTranslator/Parser.py:97-103 | On a single line, comment removal keeps exactly the prefix before the first `//`. |
| `Parsing.CleanLine` | VMTranslator/Parser.py:97-103 | Defines `clean_line`: comments removed, then whitespace stripped. `Parsing.CleanLineIdempotent` states its property. |
| `Parsing.IsBlank` | VMTranslator/Parser.py:106-111 | Defines `is_blank`: empty or whitespace only. `Parsing.CleanLineBlankIffEmpty` relates it to cleaning. |
| `Parsing.CleanLineIdempotent` | VMTranslator/Parser.py:97-103 | Cleaning a cleaned line changes nothing. |
| `Parsing.CleanLineBlankIffEmpty` | VMTranslator/Parser.py:106-111 | A cleaned line is blank exactly when it is empty. |
| `Parsing.Cleaned` | VMTranslator/Parser.py:81-94 | Defines what `clean_file` leaves: each line cleaned, blank ones dropped, in order. `Parsing.CleanFile` proves the in-place loop computes it. |
| `Parsing.CleanedLinesAreClean` | VMTranslator/Parser.py:81-94 | Every kept line is non-blank and already clean. |
| `Parsing.CleanedAppend` | VMTranslator/Parser.py:81-94 | Cleaning works line by line and keeps the order of the lines. |
| `Parsing.CleanedLength` | VMTranslator/Parser.py:81-94 | Cleaning never makes a file longer. |
| `Parsing.KeptIsClean` | VMTranslator/Parser.py:81-94 | What cleaning keeps of one line is left unchanged by cleaning again. |
| `Parsing.CleanedIdempotent` | VMTranslator/Parser.py:81-94 | Cleaning a cleaned file changes nothing. |
| `Parsing.CleanFile` | VMTranslator/Parser.py:81-94 | Cleaning in place (overwrite the line, delete it if blank, do not advance) returns the same list. That list then holds the cleaned file. |
| `Parsing.Parser.constructor` | VMTranslator/Parser.py:15-18 | The parser cleans the list it is given, keeps that list, has no current command, and starts at line -1. |
| `Parsing.Parser.Advance` | VMTranslator/Parser.py:55-60 | The line number always moves on. The current command becomes the parsed line on success and is otherwise unchanged, with the error reported. |
| `Parsing.Parser.HasMoreCommands` | VMTranslator/Parser.py:49-53 | Defines `has_more_commands`: the next line number is still inside the file. |
| `Parsing.Parser.CommandType` | VMTranslator/Parser.py:62-66 | The type of the current command; fails exactly when there is none. |
| `Parsing.Parser.Arg1` | VMTranslator/Parser.py:68-72 | The current command's first operand; fails exactly when there is none or it is a return. |
| `Parsing.Parser.Arg2` | VMTranslator/Parser.py:74-78 | The current command's second operand; fails exactly when there is none or its type is outside the whitelist. |
| `Parsing.Parser.AdvanceAll` | VMTranslator/Parser.py:49-60 | The driver's loop. Every line it passes parses. When every remaining line parses, it advances exactly once per remaining line and ends with no more commands. Otherwise it stops on the first line that does not parse. |
| `Listing.RegisterOfName` | VMTranslator/CodeWriter.py:5-14 | An address line names a base register exactly as written. |
| `Listing.EventsAppend` | VMTranslator/CodeWriter.py:106-111 | The events of two written blocks are the events of each, in order, when the first does not end with a dangling `@`. |
| `Listing.DeclaredAppend` | VMTranslator/CodeWriter.py:106-111 | The labels declared by two written blocks are those of each, in order. |
| `Listing.StackEffectAppend` | VMTranslator/CodeWriter.py:106-111 | Stack effects add up across blocks. |
| `Listing.WrapSumIdentity` | VMTranslator/CodeWriter.py:459-484 | In 16-bit arithmetic, adding an address and a value and subtracting one gives the other back, the identity the pop tail relies on. |
| `AsmCode.RamCodeRegister` | VMTranslator/CodeWriter.py:539-548 | `get_ram_code` succeeds exactly for argument, local, this and that, and names LCL, ARG, THIS or THAT. |
| `AsmCode.RamCode` | VMTranslator/CodeWriter.py:539-548 | Defines `get_ram_code` as a lookup in `SEGMENTS_MAPPER`, failing for any other segment. `AsmCode.RamCodeRegister` states its results. |
| `AsmCode.SegmentCodeOutcome` | VMTranslator/CodeWriter.py:486-537 | Segment code succeeds exactly for a mapped segment, temp, constant, static with a current file, or pointer 0 or 1. It reports each failure case. |
| `AsmCode.SegmentCode` | VMTranslator/CodeWriter.py:486-537 | Defines `translate_segment_vm_code` branch by branch. `AsmCode.SegmentCodeOutcome`, `SegmentCodeBase`, `SegmentCodeStatic` and `SegmentCodeOpenEnded` state its behaviour. |
| `AsmCode.SegmentCodeBase` | VMTranslator/CodeWriter.py:493-505 | A mapped segment adds the index to its base register, reading that register and nothing else. |
| `AsmCode.SegmentCodeStatic` | VMTranslator/CodeWriter.py:507-510 | A static segment addresses the symbol `File.index`. |
| `AsmCode.SegmentCodeOpenEnded` | VMTranslator/CodeWriter.py:512-535 | Temp, constant and static code touch no base register. |
| `AsmCode.PushDEvents` | VMTranslator/CodeWriter.py:449-455 | The push-D tail increments SP and touches nothing else. |
| `AsmCode.LoadAndPush` | VMTranslator/CodeWriter.py:439-457 | An address block followed by an optional `D=M` and the push-D tail ends with that tail and adds one SP increment to the address block's events. |
| `AsmCode.PushPointerEvents` | VMTranslator/CodeWriter.py:512-516 | Pushing pointer 0 or 1 ends with the push-D tail, reads THIS or THAT, and then increments SP once. |
| `AsmCode.PushAddressEvents` | VMTranslator/CodeWriter.py:439-457 | Pushing any other resolvable segment ends with the push-D tail, reads at most the segment's base register, and increments SP once. |
| `AsmCode.PushCodeEvents` | VMTranslator/CodeWriter.py:431-457 | Push succeeds exactly for the `skip` pseudo-segment or when its segment code succeeds. It ends with the push-D tail, reads at most the segment's base register, and increments SP once. |
| `AsmCode.PushCode` | VMTranslator/CodeWriter.py:431-457 | Defines `translate_push_vm_code_to_asm`. `AsmCode.PushCodeEvents` states its outcome and events. |
| `AsmCode.PopCodeEvents` | VMTranslator/CodeWriter.py:459-484 | Pop succeeds exactly when the segment is not `constant` and its segment code succeeds. It ends with the seven-line pop tail. Its directly named register events are the read of a mapped segment's base register, then one SP decrement. |
| `AsmCode.PopCode` | VMTranslator/CodeWriter.py:459-484 | Defines `translate_pop_vm_code_to_asm`. `AsmCode.PopCodeEvents` and `AsmCode.PopPointerStores` state its outcome, events and store. |
| `AsmCode.PopTailEvents` | VMTranslator/CodeWriter.py:473-482 | The seven-line pop tail decrements SP and touches nothing else. |
| `AsmCode.PopPointerEvents` | VMTranslator/CodeWriter.py:512-516 | Popping into pointer 0 or 1 names THIS or THAT only as the store address, so its one directly named register event is the SP decrement. |
| `AsmCode.PopAddressEvents` | VMTranslator/CodeWriter.py:467-484 | A resolvable pop's directly named register events are the read of a mapped segment's base register, then one SP decrement. |
| `AsmCode.PopTailStores` | VMTranslator/CodeWriter.py:470-482 | On a 16-bit machine, the pop tail stores the top of the stack at the computed address and decrements SP. |
| `AsmCode.PopPointerStores` | VMTranslator/CodeWriter.py:470-482 | On a 16-bit machine, `pop pointer i` stores the popped value into RAM[3 + i], which is THIS or THAT, and decrements SP. |
| `AsmCode.ReadGeneratedLabel` | VMTranslator/CodeWriter.py:385-410 | A generated label (`TRUE_k`, `END_k`, `RETURN_k`) reads back as its kind and counter. |
| `AsmCode.GeneratedLabelInjective` | VMTranslator/CodeWriter.py:385-410 | Generated labels are equal exactly when their kinds and counters are. |
| `AsmCode.ScopedLabelNotGenerated` | VMTranslator/CodeWriter.py:176-182 | A label inside a function (`f.name`) never reads as a generated label. |
| `AsmCode.ScopedLabelInjective` | VMTranslator/CodeWriter.py:176-208 | Dot-free labels in functions are equal exactly when the function and label names are. |
| `AsmCode.LabelCodeEffects` | VMTranslator/CodeWriter.py:176-182 | `label` declares exactly the scoped label and touches no register. |
| `AsmCode.GotoCodeEffects` | VMTranslator/CodeWriter.py:184-193 | `goto` declares nothing and touches no register. |
| `AsmCode.IfCodeEffects` | VMTranslator/CodeWriter.py:195-208 | `if-goto` pops the condition, one SP decrement, and declares nothing. |
| `AsmCode.LabelCode` | VMTranslator/CodeWriter.py:176-182 | Defines the lines of `write_label`. `AsmCode.LabelCodeEffects` states their effect. |
| `AsmCode.GotoCode` | VMTranslator/CodeWriter.py:184-193 | Defines the lines of `write_goto`. `AsmCode.GotoCodeEffects` states their effect. |
| `AsmCode.IfCode` | VMTranslator/CodeWriter.py:195-208 | Defines the lines of `write_if`. `AsmCode.IfCodeEffects` states their effect. |
| `AsmCode.PopToDEffects` | VMTranslator/CodeWriter.py:202-204 | Popping the top of the stack into D decrements SP and nothing else. |
| `AsmCode.ArithmeticCodeOutcome` | VMTranslator/CodeWriter.py:362-429 | Arithmetic succeeds exactly for the nine operators. A missing or unknown command is reported. |
| `AsmCode.ArithmeticCode` | VMTranslator/CodeWriter.py:362-429 | Defines `translate_arithmetic_vm_code_to_assembly` for a given jump counter. `AsmCode.ArithmeticCodeOutcome`, `ArithmeticCodeEvents` and `ArithmeticCodeDeclares` state its behaviour. |
| `AsmCode.PopOperandsEvents` | VMTranslator/CodeWriter.py:366-377 | Popping the operands decrements SP once for `neg` and `not` and twice for every other operator. |
| `AsmCode.SettleComparisonEvents` | VMTranslator/CodeWriter.py:399-409 | The tail of a comparison only reads SP, to store the 0 or -1 it chose. |
| `AsmCode.CompareCodeEvents` | VMTranslator/CodeWriter.py:385-409 | The whole compare block only reads SP, whatever the jump condition. |
| `AsmCode.SettleComparisonDeclares` | VMTranslator/CodeWriter.py:399-409 | The tail of a comparison declares exactly its TRUE label and then its END label. |
| `AsmCode.ArithmeticCodeEvents` | VMTranslator/CodeWriter.py:362-429 | A unary operator leaves SP as it was. A binary one nets one pop. Both end by incrementing SP. |
| `AsmCode.CompareCodeDeclares` | VMTranslator/CodeWriter.py:385-410 | A comparison declares exactly `TRUE_k` and `END_k`. |
| `AsmCode.ArithmeticCodeDeclares` | VMTranslator/CodeWriter.py:362-429 | Only comparisons declare labels. |
| `AsmCode.LocalInitEffects` | VMTranslator/CodeWriter.py:229-237 | One local's block reads LCL and then increments SP. |
| `AsmCode.LocalInitDeclares` | VMTranslator/CodeWriter.py:229-237 | One local's block is seven lines and declares no label. |
| `AsmCode.LocalInitsEffects` | VMTranslator/CodeWriter.py:228-237 | Initialising n locals takes 7n lines, and its events are n repetitions of reading LCL and then incrementing SP. |
| `AsmCode.LocalInitsDeclares` | VMTranslator/CodeWriter.py:228-237 | Initialising locals declares no label. |
| `AsmCode.LocalInitsStackEffect` | VMTranslator/CodeWriter.py:228-237 | Initialising n locals leaves SP n higher. |
| `AsmCode.FunctionCodeEffects` | VMTranslator/CodeWriter.py:213-239 | Function code succeeds exactly when the local count is present. It declares exactly the function's name on its first line, has 1 + 7n lines, and leaves SP n higher. |
| `AsmCode.FunctionCode` | VMTranslator/CodeWriter.py:213-239 | Defines the lines of `write_function`. `AsmCode.FunctionCodeEffects` states their effect. |
| `AsmCode.FrameSegmentsSaved` | VMTranslator/CodeWriter.py:252-263 | The caller's frame is saved in the order LCL, ARG, THIS, THAT, each with one push. |
| `AsmCode.SaveRegisterEffects` | VMTranslator/CodeWriter.py:260-266 | Saving one segment's base register reads that register and then increments SP. |
| `AsmCode.SaveRegistersEffects` | VMTranslator/CodeWriter.py:260-266 | Saving a list of registers reads and pushes each one in list order. |
| `AsmCode.SaveRegistersDeclares` | VMTranslator/CodeWriter.py:260-266 | Saving registers declares no label. |
| `AsmCode.GeneratedLabelNotRegister` | VMTranslator/CodeWriter.py:251-256 | An A-instruction naming a generated label never names a base register. |
| `AsmCode.PushReturnAddressEffects` | VMTranslator/CodeWriter.py:253-258 | Pushing the return address only increments SP. |
| `AsmCode.PushReturnAddressDeclares` | VMTranslator/CodeWriter.py:253-258 | Pushing the return address declares no label. |
| `AsmCode.RepositionArgEffects` | VMTranslator/CodeWriter.py:269-275 | ARG = SP - n - 5 reads SP and then writes ARG. |
| `AsmCode.RepositionLclEffects` | VMTranslator/CodeWriter.py:277-281 | LCL = SP reads SP and then writes LCL. |
| `AsmCode.RepositionEffects` | VMTranslator/CodeWriter.py:268-281 | Repositioning reads SP and writes ARG, then reads SP and writes LCL. |
| `AsmCode.RepositionDeclares` | VMTranslator/CodeWriter.py:268-281 | Repositioning declares no label. |
| `AsmCode.TransferControlEffects` | VMTranslator/CodeWriter.py:283-288 | The jump to the callee touches no register and declares exactly the return label. |
| `AsmCode.CallTailEffects` | VMTranslator/CodeWriter.py:268-289 | Everything after the saved frame only repositions ARG and LCL. |
| `AsmCode.CallTailDeclares` | VMTranslator/CodeWriter.py:268-289 | Everything after the saved frame declares exactly the return label. |
| `AsmCode.CallCodeEvents` | VMTranslator/CodeWriter.py:250-289 | A call with an argument count pushes the return address, saves LCL, ARG, THIS and THAT, then repositions ARG and LCL. |
| `AsmCode.CallCodeDeclares` | VMTranslator/CodeWriter.py:250-289 | A call declares exactly `RETURN_k`. |
| `AsmCode.CallCodeEffects` | VMTranslator/CodeWriter.py:241-291 | Call code succeeds exactly when the argument count is present. It pushes the return address and the four saved registers, sets ARG, then LCL, from SP, and ends by declaring `RETURN_k`, its only label. |
| `AsmCode.CallCode` | VMTranslator/CodeWriter.py:241-291 | Defines the lines of `write_call` for return label `RETURN_k`. `AsmCode.CallCodeEffects` states their effect. |
| `AsmCode.SaveFrameEffects` | VMTranslator/CodeWriter.py:298-302 | FRAME = LCL reads LCL and nothing else. |
| `AsmCode.SaveReturnAddressEffects` | VMTranslator/CodeWriter.py:303-308 | RET = *(FRAME - 5) touches no base register. |
| `AsmCode.StoreThroughArgEffects` | VMTranslator/CodeWriter.py:313-315 | *ARG = D reads ARG and nothing else. |
| `AsmCode.SpPastArgEffects` | VMTranslator/CodeWriter.py:316-319 | SP = ARG + 1 writes SP and nothing else. |
| `AsmCode.PlaceReturnValueEffects` | VMTranslator/CodeWriter.py:309-319 | Placing the return value decrements SP, reads ARG, then writes SP. |
| `AsmCode.ReturnHeadEffects` | VMTranslator/CodeWriter.py:298-319 | The first part of return reads LCL, decrements SP, reads ARG and writes SP, in that order. |
| `AsmCode.RestoreRegisterEffects` | VMTranslator/CodeWriter.py:320-327 | Restoring one segment from the frame writes that segment's base register and nothing else. |
| `AsmCode.RestoreThreeEffects` | VMTranslator/CodeWriter.py:320-343 | Restoring THAT, THIS and ARG writes those three registers in that order. |
| `AsmCode.RestoreCallerFrameEffects` | VMTranslator/CodeWriter.py:320-351 | Restoring the caller's frame writes THAT, THIS, ARG and LCL in that order. |
| `AsmCode.ReturnCodeEffects` | VMTranslator/CodeWriter.py:293-358 | Return reads LCL, pops the return value to ARG, resets SP, then restores THAT, THIS, ARG and LCL in that order. |
| `AsmCode.ReturnCodeStackEffect` | VMTranslator/CodeWriter.py:293-358 | Return nets one SP decrement before SP is reset. |
| `AsmCode.ReturnCodeDeclares` | VMTranslator/CodeWriter.py:293-358 | Return declares no label. |
| `AsmCode.ReturnCode` | VMTranslator/CodeWriter.py:293-358 | Defines the lines of `write_return`. `AsmCode.ReturnCodeEffects`, `ReturnCodeStackEffect` and `ReturnCodeDeclares` state their effect. |
| `AsmCode.BootstrapEffects` | VMTranslator/CodeWriter.py:118-140 | The bootstrap block writes SP and nothing else. |
| `AsmCode.BaseName` | VMTranslator/CodeWriter.py:24-28 | The base name is a slash-free suffix of the path. It is the whole path, or it is preceded by a `/`, so it is everything after the last `/`. |
| `AsmCode.BaseNameWithoutSlash` | VMTranslator/CodeWriter.py:24-28 | A path without `/`, such as `Foo.vm` or `Dir`, is its own base name. |
| `AsmCode.OutputFilenameOfVmFile` | VMTranslator/CodeWriter.py:22-23 | A `.vm` path's output replaces every `.vm` with `.asm`. |
| `AsmCode.OutputFilenameOfDirectory` | VMTranslator/CodeWriter.py:24-28 | A directory with an empty base name is refused. Otherwise the output is `dir/base.asm`. |
| `AsmCode.NotAsmOutputOnlyForPlainPaths` | VMTranslator/CodeWriter.py:29-35 | The "must be a .asm file" error arises exactly for a path that is neither a `.vm` file nor a directory, and does not end in `.asm`. |
| `AsmCode.OutputFilenameOfOtherPath` | VMTranslator/CodeWriter.py:29-35 | A path that is neither a `.vm` file nor a directory is its own output when it ends in `.asm`, and is refused otherwise. |
| `AsmCode.OutputFilename` | VMTranslator/CodeWriter.py:19-35 | Defines the choice of output file name in `__init__`. The three `OutputFilenameOf…` and `NotAsmOutputOnlyForPlainPaths` lemmas state it case by case. |
| `AsmCode.PathJoin` | VMTranslator/CodeWriter.py:28 | Defines `os.path.join` of two components. |
| `AsmCode.FileStem` | VMTranslator/CodeWriter.py:103 | Defines the current file name that `set_filename` stores. `AsmCode.FileStemOfVmPath` states its value. |
| `AsmCode.BaseNameAfterSlash` | VMTranslator/CodeWriter.py:102-104 | The base name of `dir/name` is `name`. |
| `AsmCode.FileStemOfVmPath` | VMTranslator/CodeWriter.py:102-104 | The current file name of `dir/stem.vm` is `stem`. |
| `AsmCode.StaticSymbolsDistinct` | VMTranslator/CodeWriter.py:507-510 | Static symbols are equal exactly when the file and the index are. |
| `CodeWriting.IssuedLabelsFresh` | VMTranslator/CodeWriter.py:42-43 | The labels the counters name next are not among those already issued. |
| `CodeWriting.IssueComparisonLabels` | VMTranslator/CodeWriter.py:385-410 | Issuing `TRUE_k`, `END_k` and advancing the jump counter keeps the issued labels distinct. |
| `CodeWriting.IssueReturnLabel` | VMTranslator/CodeWriter.py:241-251 | Issuing `RETURN_k` and advancing the return counter keeps the issued labels distinct. |
| `CodeWriting.Written` | VMTranslator/CodeWriter.py:106-111 | Writing always adds at least one line; an empty list writes an empty line. |
| `CodeWriting.LoggedEffects` | VMTranslator/CodeWriter.py:143-150 | A logged VM command touches no register and declares nothing. |
| `CodeWriting.BootstrapBlockEffects` | VMTranslator/CodeWriter.py:127-138 | The bootstrap block between its comments writes SP and nothing else. |
| `CodeWriting.InitCodeEffects` | VMTranslator/CodeWriter.py:118-140 | For a directory, start-up code writes SP and then performs exactly the events of a call. |
| `CodeWriting.InitCodeDeclares` | VMTranslator/CodeWriter.py:118-140 | Start-up code declares only the return label of the Sys.init call. |
| `CodeWriting.InitCode` | VMTranslator/CodeWriter.py:118-140 | Defines what `write_init` writes: nothing for a file, and for a directory the logged bootstrap and then the logged call of Sys.init. `CodeWriting.InitCodeEffects` and `InitCodeDeclares` state its effect. |
| `CodeWriting.AssembleFunction` | VMTranslator/CodeWriter.py:221-237 | The lines built in the loop are the function code: the entry label and one block per local, or a failure when the count is missing. |
| `CodeWriting.AssembleCall` | VMTranslator/CodeWriter.py:249-289 | The lines built in the loop over LCL, ARG, THIS and THAT are the call code for `RETURN_k`, or a failure when the count is missing. |
| `CodeWriting.CodeWriter.constructor` | VMTranslator/CodeWriter.py:19-46 | A new writer has no current file or function and a zero jump counter. Its output is the start-up code, and only the directory case advances the return counter. |
| `CodeWriting.CodeWriter.Create` | VMTranslator/CodeWriter.py:19-46 | A writer is created exactly when the output file name is accepted. It records that name, starts with no current file or function, a jump counter of 0 and a return counter of 1 after a directory's bootstrap (0 otherwise), and its output is the start-up code. |
| `CodeWriting.CodeWriter.SetFilename` | VMTranslator/CodeWriter.py:102-104 | The current file becomes the stem of the path, and no function is current. |
| `CodeWriting.CodeWriter.Write` | VMTranslator/CodeWriter.py:106-111 | The written lines are appended to the output and nothing else changes. |
| `CodeWriting.CodeWriter.Log` | VMTranslator/CodeWriter.py:147-148 | When logging is on, appends the VM command as one comment line; otherwise nothing changes. |
| `CodeWriting.CodeWriter.WriteInit` | VMTranslator/CodeWriter.py:118-140 | Only for a directory: appends the start-up code, records `RETURN_k` as issued, and advances the return counter. |
| `CodeWriting.CodeWriter.TranslateArithmetic` | VMTranslator/CodeWriter.py:362-429 | Returns the arithmetic code for the current jump counter, and advances that counter exactly for a comparison. |
| `CodeWriting.CodeWriter.WriteArithmetic` | VMTranslator/CodeWriter.py:143-150 | Logs, then appends the arithmetic code. The new labels are recorded and stay distinct. A failure leaves only the log line. |
| `CodeWriting.CodeWriter.WritePushPop` | VMTranslator/CodeWriter.py:152-171 | Logs, then appends push or pop code for the current file. Any other command type fails. |
| `CodeWriting.CodeWriter.WriteLabel` | VMTranslator/CodeWriter.py:176-182 | Logs, then appends the scoped label declaration. |
| `CodeWriting.CodeWriter.WriteGoto` | VMTranslator/CodeWriter.py:184-193 | Logs, then appends the jump to the scoped label. |
| `CodeWriting.CodeWriter.WriteIf` | VMTranslator/CodeWriter.py:195-208 | Logs, then appends the conditional jump to the scoped label. |
| `CodeWriting.CodeWriter.WriteFunction` | VMTranslator/CodeWriter.py:213-239 | Makes the function current, logs, and appends the lines `AssembleFunction` builds. A missing count fails after the log line. |
| `CodeWriting.CodeWriter.WriteCall` | VMTranslator/CodeWriter.py:241-291 | Advances the return counter in all cases and logs. It appends the lines `AssembleCall` builds and records `RETURN_k`, keeping labels distinct. A missing count fails after the log line. |
| `CodeWriting.CodeWriter.WriteReturn` | VMTranslator/CodeWriter.py:293-358 | Logs, then appends the return code. |

## Left out

- File I/O is not modelled. Opening, writing and closing the output file (`close`) become a sequence of lines, and the source's status `print` is dropped.
- `os.path.isdir` is a boolean parameter (`isDirectory`). `os.path.basename` and `os.path.join` are modelled for `/`-separated paths only.
- The driver `VMTranslator.py` is not part of this model. It opens files, lists a directory's `.vm` files and dispatches each command to the writer.
- The property getters and setters of `CodeWriter.py` (lines 48-100) are plain field reads and writes, and so are the fields themselves. `in_function` is `current_function is not None`, which `AsmCode.ScopedLabel` decides by matching on the optional function name.
- Hack execution is modelled only for the pop tail (`Listing.Run`). Other generated code is described by its register events and declared labels, not executed.
- `Text.ParseInt` accepts an optional sign followed by ASCII decimal digits. Python's `int()` also accepts surrounding whitespace, underscores between digits and non-ASCII digits. Such operands (`"3\t"`, `"1_0"`) fail here where the source would accept them.
- `Text.Split` models `str.split(' ')` exactly: repeated spaces give empty words, as in the source.
- `Parsing.DropComments` models `re.sub('//.*', '', line)` with Python's default flags, where `.` does not match a newline. The trailing newline that `readlines` leaves is kept by comment removal and removed by `strip`.
- `AsmCode.RamCode`: the `None` check in `get_ram_code` can never fire, because a missing key already raises. Both cases are one failure, `UnknownSegment`.
- Label distinctness covers only the generated labels (`TRUE_k`, `END_k`, `RETURN_k`). The writer's ghost list `generated` records no other label. Three collisions the source allows are therefore modelled but not excluded:
  - a label written outside any function is emitted unscoped and can equal a generated label;
  - a function entry label `(name)` can equal a generated label, as with `function RETURN_0 0`;
  - a scoped label `f.L` can equal a function named `f.L`.

  `AsmCode.ScopedLabelNotGenerated` proves only that labels inside functions never read as generated labels.
- PopCodeEvents, PopAddressEvents and PopPointerEvents list only register accesses that the line before names. The pop tail's final store goes through an address computed at run time, so it is not among their events. For `pop pointer 0|1` that store overwrites THIS or THAT, which `AsmCode.PopPointerStores` proves on the machine model.
- The register events drop the values involved. The call offset `@{n+5}`, the frame slots 1 to 5 of return and the jump targets appear in the code-block functions (`AsmCode.CallCode`, `AsmCode.ReturnCode`), which reproduce the source's lists, but no lemma restates them.
- `CodeWriting.CodeWriter.WritePushPop` takes the command type as the source's string (`"C_PUSH"`, `"C_POP"`). The writer never receives a parsed `Command` directly.
