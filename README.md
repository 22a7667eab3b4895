# Hack assembler, modelled in Dafny

This project models the translation core of a Rust assembler for the Hack
machine language, the 16-bit instruction set of Nisan and Schocken's *The
Elements of Computing Systems*. The core has three parts.

- **The line scanner** (`Parser`, `src/parser.rs`) is a cursor over the source
  lines. `advance` skips a line that is empty or starts with `/`. Otherwise it
  takes the line, cuts it at the first `//`, trims it, and makes the result
  the current instruction. It counts taken A- and C-instructions in
  `current_line`; labels are not counted. Pure accessors classify the current
  instruction and split it into symbol, dest, comp and jump.
- **The mnemonic encoder** (`src/code.rs`) has three total lookup tables. They
  map dest, comp and jump mnemonics to 3-, 7- and 3-bit strings. Anything else
  gives the literal `"error"`.
- **The driver** (`Assembler`, `src/hackasm.rs`) seeds a symbol table with the
  23 predefined symbols. One scan loop then does three things:
  - it emits one word per A- or C-instruction;
  - it binds each label to the number of words before it;
  - for a symbol that is not known yet, it emits the placeholder `"replace"`
    and records the word's 1-based position in `to_fill`.

  A backfill loop then visits the deferred symbols in HashMap order. A symbol
  still missing from the table is a variable: it gets the next RAM address,
  counting up from 16. Every recorded position is overwritten with the
  symbol's address.

## Layout

- `options.dfy`: `Options.Option`.
- `strings.dfy`: `Strings`, the parts of Rust's `str` used here:
  - `trim` (Unicode White_Space);
  - the first piece of `split("//")` and of `split(c)`;
  - `replace` of `@`, `(` and `)` by nothing.
- `numerals.dfy`: `Numerals`, with the `u16` newtype, `format!("{:016b}", n)`
  as `ToBin16` and `str::parse::<u16>` as `ParseU16`.
- `code.dfy`: `Code`, the three encoding tables and their inverses.
- `parser.dfy`: `HackParser`.
  - The accessors are pure functions of the instruction text.
  - `Parser` is a class: `pos` is how many lines `source_iterator` has
    consumed, and `currentLine` and `currentInstruction` are the two public
    fields.
  - `Counted`, `Current`, `Taken` and `NextTaken` describe the cursor as a
    function of `pos`. `Advance` is a loop proved against them.
- `hackasm.dfy`: `HackAsm`.
  - `Decode` reads off what the scan loop needs from an instruction.
  - `Step` is one turn of the scan loop. `ScanUpTo` folds it over the decoded
    instructions. `ScanLines` says where the loop stands after each line.
    `Assembly` is the state when the loop ends.
  - `BackfillStep` is one turn of the backfill loop, and `Backfilled` folds it
    over a visiting order.
  - `Outcome` is what the result satisfies whatever that order is.
  - The class `Assembler` has `Process`, `Scan`, `Backfill` and
    `GenerateBinary`. These methods mirror the loops and are proved against
    those functions.

## Behaviour kept as the code has it

Where the code and a plain reading of the design disagree, the model follows
the code.

- **Skipped lines.** `advance` skips a line only when the raw line is empty or
  its first character is `/` (`src/parser.rs:57-71`). A line of spaces, or an
  indented `// comment`, is taken. Its instruction text is empty, which makes
  it a C-instruction.
- **The repeated last turn.** If the source ends in skipped lines after its
  last instruction, the final `advance` consumes them and leaves the current
  instruction as it was (`src/parser.rs:48-50`, `src/hackasm.rs:84-86`). The
  loop body then runs again on the instruction it already processed.
  - `RepeatDuplicatesWord` proves the effect: the output gets that
    instruction's word a second time, or nothing more for a label.
  - For a symbol that was unknown, the second placeholder's position is not
    recorded, because the recorded position is the same `current_line` again.
    `AssemblyOutcome` therefore allows one placeholder to survive, at
    `RepeatIndex`.
- **A lone comp.** `dest` is the text before the first `=` unless it holds a
  `;`. A C-instruction with neither `=` nor `;` is therefore also read as its
  own dest (`FieldsOfCompose`). For example, `D` encodes dest `010`.
- **A second `=`.** `comp` stops at a second `=` as well as at `;`.
- **Symbol marks.** `symbol` deletes every `@`, `(` and `)` anywhere in the
  text, not only the enclosing ones.
- **Labels and predefined names.** A label may rebind a predefined symbol or an
  earlier label; the last declaration wins (`ScanTable`).
- **Deferred symbols.** `to_fill` keys are never removed. Only a variable's
  position list is emptied.
- **Encoding errors.** An unknown mnemonic embeds `"error"` in the word instead
  of failing (`ComputeWordBits`).

## Model

| member | source | states |
|---|---|---|
| Strings.Trim | src/parser.rs:74 | `trim` never lengthens its input; TrimSpec states which part it keeps |
| Strings.TrimSpec | src/parser.rs:74 | `trim` returns the infix of its input with only whitespace on either side; the result neither starts nor ends with whitespace, and it is empty exactly when the input is all whitespace |
| Strings.BeforeComment | src/parser.rs:74 | the first piece of `split("//")` is a prefix of the line; BeforeCommentSpec states where it stops |
| Strings.BeforeCommentSpec | src/parser.rs:74 | the first piece of `split("//")` is the prefix up to the first `//`, with no `//` before that point, or the whole line when there is none |
| Strings.Before | src/parser.rs:112 | the first piece of `split(c)` is a prefix without `c`, followed by `c` or by the end of the text |
| Strings.RemoveMarks | src/parser.rs:105 | the result holds no `@`, `(` or `)`, is no longer than the input, and equals the input when it held none |
| Strings.RemoveMarksChar | src/parser.rs:105 | a single character is deleted exactly when it is `@`, `(` or `)`, and kept otherwise |
| Strings.RemoveMarksAppend | src/parser.rs:105 | deleting the marks works piece by piece over a concatenation; with RemoveMarksChar this fixes `replace` as keeping every other character in order |
| Numerals.ToBin16 | src/hackasm.rs:93 | `{:016b}` gives exactly 16 characters |
| Numerals.ToBinaryValue | src/hackasm.rs:93 | below 2^width, the zero-padded binary digits read back as the number |
| Numerals.ToBin16Value | src/hackasm.rs:93 | a u16's sixteen characters are binary digits whose value is the u16 |
| Numerals.ToBin16Injective | src/hackasm.rs:93 | distinct addresses are written differently |
| Numerals.ParseU16 | src/hackasm.rs:90 | `parse::<u16>` on the text of an A-instruction, as an Option; ParseU16Spec and ParseU16Decimal state what it accepts |
| Numerals.ParseU16Spec | src/hackasm.rs:90 | `parse::<u16>` succeeds exactly on one or more ASCII digits, optionally after `+`, whose value is below 65536, and returns that value |
| Numerals.ParseU16Decimal | src/hackasm.rs:90 | every u16 written in decimal, with or without a leading `+`, parses back to itself |
| Numerals.DecimalRoundTrip | src/hackasm.rs:90 | the decimal digits of n read back as n |
| Code.Dest | src/code.rs:1-15 | every dest code is `"error"` or three binary digits |
| Code.Comp | src/code.rs:17-50 | every comp code is `"error"` or seven binary digits |
| Code.Jump | src/code.rs:52-64 | every jump code is `"error"` or three binary digits |
| Code.AbsentFields | src/code.rs:1-64 | dest and jump give `000` exactly for an absent field; an absent comp gives `"error"` |
| Code.DestEncoding | src/code.rs:2-14 | the dest table holds exactly the orderings of one to three distinct registers among A, D and M; its three bits say whether A, D and M are named |
| Code.DestOrderIndependent | src/code.rs:4-12 | two dest mnemonics get the same code exactly when they name the same registers |
| Code.CompEncoding | src/code.rs:18-49 | comp knows exactly the 28 mnemonics; each code decodes back to its mnemonic, and the a-bit is 1 exactly when the mnemonic reads M |
| Code.CompInjective | src/code.rs:20-47 | distinct comp mnemonics have distinct codes |
| Code.JumpEncoding | src/code.rs:53-63 | jump knows exactly the seven mnemonics; each gets a non-zero code that decodes back to it, and JMP gets `111` |
| HackParser.TypeOf | src/parser.rs:91-98 | `instruction_type` of the current instruction; TypeByFirstChar states the mapping |
| HackParser.TypeByFirstChar | src/parser.rs:91-98 | the instruction type depends on the first character alone: `@` gives an A-instruction, `(` a label, and any other character or the empty text a C-instruction |
| HackParser.Symbol | src/parser.rs:100-106 | `symbol` is absent exactly for a C-instruction |
| HackParser.SymbolUnmarked | src/parser.rs:105 | a symbol holds no `@`, `(` or `)` |
| HackParser.SymbolRoundTrip | src/parser.rs:100-106 | for x without marks, `@x` and `(x)` both give back the symbol x |
| HackParser.DestField | src/parser.rs:108-122 | only a C-instruction has a dest |
| HackParser.DestFieldSpec | src/parser.rs:108-122 | dest is the prefix of a C-instruction before its first `=`; it is present exactly when that prefix holds no `;` |
| HackParser.CompField | src/parser.rs:124-141 | comp is present exactly for a C-instruction |
| HackParser.CompFieldSpec | src/parser.rs:124-141 | comp is the longest piece after the first `=`, or from the start when there is no `=`, that holds neither `=` nor `;` |
| HackParser.JumpField | src/parser.rs:143-154 | jump is present exactly for a C-instruction holding a `;` |
| HackParser.JumpFieldSpec | src/parser.rs:143-154 | jump is the piece after the first `;` up to the next `;` or the end |
| HackParser.FieldsOfCompose | src/parser.rs:108-154 | splitting `dest=comp;jump` gives back its parts; with no dest, a lone comp with no jump is also read as the dest |
| HackParser.Skipped | src/parser.rs:57-71 | the lines advance passes over: empty, or starting with `/`; NextTakenSkips and SkipLines state what skipping does |
| HackParser.Clean | src/parser.rs:73-74 | the instruction text of a taken line, cut at `//` and trimmed, never longer than the line |
| HackParser.Counted | src/parser.rs:80-82 | current_line after n lines: never more than n; TakenCounted ties it to the A- and C-instructions taken |
| HackParser.Current | src/parser.rs:72-83 | current_instruction after n lines; CurrentSome and TakenCounted state when it is present and which instruction it is |
| HackParser.LastTaken | src/parser.rs:57-83 | the last line among the first n that advance takes: it is not skipped, and every later line is |
| HackParser.CurrentSome | src/parser.rs:47-89 | there is a current instruction exactly when some line so far was not skipped |
| HackParser.SkipLines | src/parser.rs:57-71 | skipped lines change neither current_line, nor the current instruction, nor what was taken |
| HackParser.TakenPrefix | src/parser.rs:47-89 | the instructions taken from fewer lines are a prefix of those taken from more |
| HackParser.AddressesPrefix | src/parser.rs:80-82 | the count of A- and C-instructions depends only on the instructions counted |
| HackParser.TakenCounted | src/parser.rs:80-82 | current_line is the number of A- and C-instructions taken so far, and the current instruction is the last one taken |
| HackParser.TakenSoFar | src/parser.rs:72-83 | after n lines, current_line counts the A- and C-instructions among the first m instructions of the source, and the current instruction is the m-th, where m is how many were taken |
| HackParser.TakenNext | src/parser.rs:56-83 | taking a line after skipped ones makes it the next instruction of the source, current and counted |
| HackParser.NextTaken | src/parser.rs:47-89 | one advance consumes at least one line while any remain, and never goes past the end |
| HackParser.NextTakenSkips | src/parser.rs:57-71 | advance passes over skipped lines only, and stops on a skipped line only at the end of the source |
| HackParser.AdvanceTakes | src/parser.rs:47-89 | advance stops after the first line it takes. That line's cleaned text becomes current, and it is counted unless it is a label. When only skipped lines remain, neither changes |
| HackParser.Parser.constructor | src/parser.rs:20-26 | a new cursor is at line 0, with current_line 0 and no current instruction |
| HackParser.Parser.HasMoreLines | src/parser.rs:34-40 | true exactly when an advance would consume a line; when false, current_line already has its final value |
| HackParser.Parser.Advance | src/parser.rs:47-89 | consumes exactly the lines `NextTaken` names and keeps current_line and the current instruction equal to `Counted` and `Current` |
| HackAsm.PredefinedDomain | src/hackasm.rs:48-75 | the table is seeded with R0 to R15, SP, LCL, ARG, THIS, THAT, SCREEN and KBD, and nothing else |
| HackAsm.PredefinedRegisters | src/hackasm.rs:14-31 | Rn names address n |
| HackAsm.PredefinedNamed | src/hackasm.rs:11-39 | SP, LCL, ARG, THIS and THAT name 0 to 4, SCREEN names 16384 and KBD names 24576 |
| HackAsm.ComputeWord | src/hackasm.rs:130-136 | a C-instruction's word starts with `111` |
| HackAsm.WordBits | src/hackasm.rs:130-136 | `111` followed by the three codes starts with `111` and is 16 binary digits exactly when no code is `"error"` |
| HackAsm.ComputeWordBits | src/hackasm.rs:130-136 | a C-instruction's word is 16 binary digits exactly when its comp, dest and jump all have codes |
| HackAsm.Decode | src/hackasm.rs:86-156 | the scan loop takes the label arm exactly for an L-instruction and the C arm exactly for a C-instruction |
| HackAsm.DecodedWords | src/hackasm.rs:130-136 | no C-instruction's word is the placeholder |
| HackAsm.Step | src/hackasm.rs:86-156 | one turn of the scan loop emits one word, or none for a label |
| HackAsm.StepKeepsOutput | src/hackasm.rs:86-156 | one turn keeps the words already emitted |
| HackAsm.ScanLines | src/hackasm.rs:84-157 | where the scan loop stands after n lines; ScanSkips, ScanTurn and ScanLinesEnd state how it moves and where it ends |
| HackAsm.Assembly | src/hackasm.rs:84-157 | the state when the scan loop ends: the scan of every instruction, then the repeated last turn when the source ends in skipped lines; ScanLinesEnd ties it to the loop |
| HackAsm.AssemblyLength | src/hackasm.rs:84-157 | the scan loop emits one word per A- or C-instruction, plus one more when a repeated last turn runs on an A- or C-instruction |
| HackAsm.ScanUpTo | src/hackasm.rs:84-157 | the scan of the first m instructions has emitted one word per A- or C-instruction among them |
| HackAsm.AppendWordWellFormed | src/hackasm.rs:92-113 | emitting a finished word keeps every placeholder recorded at a valid position |
| HackAsm.AppendUseWellFormed | src/hackasm.rs:115-126 | recording a use at the new word's 1-based position and emitting a placeholder keeps every placeholder recorded, each position for one symbol |
| HackAsm.StepWellFormed | src/hackasm.rs:86-156 | one turn keeps every placeholder recorded and every recorded position a placeholder, each position for one symbol |
| HackAsm.ScanWellFormed | src/hackasm.rs:84-157 | the scan keeps every placeholder recorded, each position for one symbol, and defers at most one symbol per instruction |
| HackAsm.RepeatOnState | src/hackasm.rs:84-157 | running a turn again on the state it produced, with the same current_line, changes neither the table nor the deferred symbols; only the word it appends may be an unrecorded placeholder |
| HackAsm.ScanRepeatReady | src/hackasm.rs:84-157 | the scan of the first k + 1 instructions is in the state a repeat of the step on the k-th expects |
| HackAsm.RepeatStep | src/hackasm.rs:84-157 | repeating the turn on the last instruction keeps the table and the deferred symbols, and leaves at most the appended word unrecorded |
| HackAsm.StepTwice | src/hackasm.rs:86-156 | the same turn twice with the same current_line binds a label to the same address again, or emits the same word a second time |
| HackAsm.RepeatDuplicatesWord | src/hackasm.rs:84-157 | a source ending in skipped lines after its last instruction gets that instruction's word twice at the end, or nothing more for a label |
| HackAsm.AssemblyWellFormed | src/hackasm.rs:84-157 | when the scan loop ends, every recorded position is a placeholder and belongs to one symbol. Every placeholder is recorded except the one a repeated last turn appends. At most one symbol is deferred per line |
| HackAsm.LastLabel | src/hackasm.rs:144-148 | the index of the last declaration of a label among the first m instructions, with no declaration after it |
| HackAsm.ScanTable | src/hackasm.rs:144-148 | after the scan, a symbol is in the table exactly when it is predefined or declared. A declared label holds the number of A- and C-instructions before its last declaration, and a predefined symbol never declared keeps its address |
| HackAsm.ScanTableDomain | src/hackasm.rs:144-148 | only predefined symbols and declared labels enter the table |
| HackAsm.ScanTableLabel | src/hackasm.rs:144-148 | a declared label is bound to current_line at its last declaration |
| HackAsm.ScanTablePredefined | src/hackasm.rs:144-148 | a predefined symbol that is never declared keeps its address |
| HackAsm.AssemblyTable | src/hackasm.rs:84-157 | a repeated last turn leaves the symbol table as the scan left it |
| HackAsm.ScanLinesStep | src/hackasm.rs:84-86 | a line advance takes, or the end of the source once an instruction was taken, runs a turn on the current instruction with current_line |
| HackAsm.ScanSkips | src/hackasm.rs:84-86 | skipped lines before the end leave the scan state unchanged |
| HackAsm.ScanTurn | src/hackasm.rs:84-156 | one iteration of the scan loop runs one turn on the instruction advance reaches, with the current_line it leaves |
| HackAsm.ScanLinesTaken | src/hackasm.rs:84-157 | short of a repeated last turn, the loop state is the scan of the instructions taken so far |
| HackAsm.ScanLinesTake | src/hackasm.rs:84-157 | a line advance takes extends that scan by one instruction |
| HackAsm.TakenInstruction | src/hackasm.rs:84-157 | the line taken is the next instruction of the source, decoded and counted as the scan of instructions has it |
| HackAsm.ScanLinesEnd | src/hackasm.rs:84-157 | once every line is consumed, the loop has reached `Assembly`: the scan of every instruction, plus the repeated last turn when the source ends in skipped lines |
| HackAsm.ScanLinesPlain | src/hackasm.rs:84-157 | without trailing skipped lines, the loop ends with the scan of every instruction |
| HackAsm.ScanLinesRepeat | src/hackasm.rs:84-157 | with trailing skipped lines, the loop ends by repeating the turn on the last instruction |
| HackAsm.ScanBeforeRepeat | src/hackasm.rs:84-157 | before the trailing skipped lines, every instruction has been scanned |
| HackAsm.RepeatedInstruction | src/hackasm.rs:84-86 | the repeated turn runs on the last instruction with the final current_line |
| HackAsm.ScanExtends | src/hackasm.rs:84-157 | a later scan keeps the earlier words as a prefix and keeps every recorded position |
| HackAsm.AssemblyExtends | src/hackasm.rs:84-157 | the loop's final state extends the scan of every instruction, repeat or not |
| HackAsm.ScanEmits | src/hackasm.rs:87-143 | the scan emits the word for an A- or C-instruction at index (number of A- and C-instructions before it). That word is one of: a literal's binary; a known symbol's address at that point; the C-instruction's word; or a placeholder whose position is recorded for the unknown symbol |
| HackAsm.Overwritten | src/hackasm.rs:173-194 | writing a word at listed 1-based positions changes those positions and no others |
| HackAsm.Overwrite | src/hackasm.rs:173-194 | the loop that writes one word at each recorded position computes `Overwritten` |
| HackAsm.BackfillStep | src/hackasm.rs:167-195 | one turn of the backfill binds the symbol if it was missing, overwrites its uses with its address, keeps the other bindings and the deferred symbols, and moves current_ram on exactly for a variable |
| HackAsm.Backfilled | src/hackasm.rs:167-195 | the backfill after visiting some symbols allocates at most one RAM address per symbol visited, and keeps the deferred symbols and the number of words |
| HackAsm.VariableTable | src/hackasm.rs:170-181 | binding a variable and emptying its positions keeps the backfill's table invariant |
| HackAsm.VariableRam | src/hackasm.rs:170-183 | a variable gets current_ram and current_ram moves on, keeping the variables at distinct addresses 16, 17, ... |
| HackAsm.AllocateOne | src/hackasm.rs:172-182 | the next address after the allocated ones is free |
| HackAsm.WordsStep | src/hackasm.rs:179-194 | overwriting one more symbol's uses with its address keeps every other word |
| HackAsm.RamStep | src/hackasm.rs:170-183 | one turn of the backfill allocates an address only for a symbol missing from the table |
| HackAsm.BackfilledTable | src/hackasm.rs:167-195 | in any order, the visited symbols enter the table. Known symbols keep their addresses, and only the visited variables' positions are emptied |
| HackAsm.BackfilledRam | src/hackasm.rs:170-183 | in any order, the visited variables hold 16, 17, ..., one each, and current_ram is 16 plus their number |
| HackAsm.BackfilledFill | src/hackasm.rs:167-195 | a symbol not yet visited still has all its recorded positions |
| HackAsm.BackfilledNext | src/hackasm.rs:167-195 | visiting one more symbol is one more turn of the backfill loop |
| HackAsm.BackfilledWords | src/hackasm.rs:167-195 | in any order, each visited symbol's uses hold its address and every other word is as the scan left it |
| HackAsm.TableOutcome | src/hackasm.rs:167-195 | once every deferred symbol is visited, they are all in the table, known symbols keep their addresses, and only the variables' positions are emptied |
| HackAsm.RamOutcome | src/hackasm.rs:170-183 | once every deferred symbol is visited, the variables hold distinct addresses from 16 up, as many as there are variables |
| HackAsm.WordsOutcome | src/hackasm.rs:167-195 | once every deferred symbol is visited, every recorded use holds its symbol's address and every unrecorded word is unchanged |
| HackAsm.FillOutcome | src/hackasm.rs:167-195 | in every order, the backfill keeps known addresses and gives the variables 16, 17, ... one each. Every recorded use gets its symbol's address, every other word is kept, and no placeholder survives except possibly an unrecorded one |
| HackAsm.AssemblyOutcome | src/hackasm.rs:80-202 | generate_binary's result, in every order, satisfies `Outcome` for the state the scan loop ends in. The only placeholder that can survive is the one a repeated last turn leaves |
| HackAsm.AssembledWord | src/hackasm.rs:80-202 | in every order, an A- or C-instruction's final word is one of: its C-instruction word; its literal's binary; the address its symbol had when the instruction was reached; or, for a symbol unknown then, the symbol's final address |
| HackAsm.Assembler.constructor | src/hackasm.rs:48-78 | a new assembler has a fresh cursor at line 0, the predefined table and nothing deferred |
| HackAsm.Assembler.Process | src/hackasm.rs:86-156 | the body of the scan loop updates the table, to_fill and the output exactly as `Step` does |
| HackAsm.Assembler.Scan | src/hackasm.rs:84-157 | the scan loop consumes every line and ends in the state `ScanLines` gives there, which ScanLinesEnd shows is `Assembly` |
| HackAsm.Assembler.Backfill | src/hackasm.rs:167-195 | the backfill loop, visiting the deferred symbols in an arbitrary order, ends as `Backfilled` does for some order that visits each of them once |
| HackAsm.Assembler.GenerateBinary | src/hackasm.rs:80-202 | generate_binary ends as the backfill of `Assembly` in some visiting order, and its table and words satisfy `Outcome`, with every line consumed |

## Left out

- `src/main.rs` is not part of this model. It covers argument handling, reading
  and writing files, the output file name and joining the words with newlines.
- The `println!` of each literal word (`src/hackasm.rs:94`) and
  `Parser::print_lines` are console output only. They change no state.
- `str::lines` is not modelled: the source is given as its sequence of lines,
  so the `\n` and `\r\n` handling happens before the model.
- HashMap iteration order and hashing are not modelled. The backfill picks the
  next symbol with `:|`, and every property is proved for all orders.
- The u16 counters are modelled as unbounded integers. `current_line` and the
  recorded positions are `nat`. `Scan` and `GenerateBinary` require at most
  65519 lines (`MaxLines`). Under that bound neither `current_line` nor
  `current_ram` can pass 65535, so the overflow at `src/parser.rs:81` and
  `src/hackasm.rs:182` does not arise.
- HackAsm.Assembler.Scan: requires at least one line that is not skipped when
  the source has lines. On an input of only skipped lines the source unwraps a
  missing current instruction (`src/parser.rs:92`) and panics. That path is
  excluded, not modelled.
- HackAsm.Assembler.GenerateBinary: requires a freshly constructed assembler,
  as the program uses it. A second call would start from a consumed cursor and
  a filled table.
- The `&str` lifetimes and the cloning of the line iterator in
  `has_more_lines` are not modelled. The cursor is the count of consumed lines.
- `InstructionType` is the datatype `HackParser.InstructionType`. `Decoded` is
  the model's own factoring of what each arm of the scan loop reads from the
  parser before it looks at the table.
