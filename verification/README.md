# RISC-V simulator: from tokens to fetched instructions

This project models the path a program takes through the simulator, and proves that its separately
written pieces agree: the two-pass parser with its operand parsers and back-patching, the seventeen
encoding formats and the immediate generator, the loader and the sparse memory, and around them the
integer arithmetic unit, the breakpoint line map and the disassembly listing.

Machine words and bytes are bit-vectors where the program shifts and masks them; counters, offsets and
registers of the arithmetic unit are integers with their wrap-around written out. Code that updates
fields is a class (`Parser`, `Memory`, `VmBase`, `ICUnit`); each of its methods leaves exactly the state
that a function of the old state gives, and the theorems are about runs of those functions.

| file | content |
|---|---|
| `Words`, `WordArithmetic`, `Text`, `Bytes` | words as integers, numbers as text, little-endian bytes |
| `Instructions`, `Units`, `Encoder`, `Decoder`, `ImmGen`, `FloatClass` | tables, intermediate code, encoding and its inverse, immediates |
| `Tokens`, `ParserState`, `DataPass`, `PassOne`, `Operands`, `TextPass`, `Parser` | the parser, as functions on its state and as the object |
| `OperandTheorems`, `LineRoundTrip`, `LineMeaning`, `AddressPairs`, `DataItems` | what one line yields and means |
| `Acceptance`, `Grammar`, `DataSource`, `TextSource`, `Accepting` | which lines and programs are accepted, and which errors are reported |
| `DataTheorems`, `LabelCarrying`, `Assembly`, `Provenance`, `Coverage` | what whole parses keep |
| `Layout`, `MainMemory`, `MemoryTheorems`, `Loader`, `Vm` | data layout, memory, loading, breakpoints |
| `EndToEnd`, `SourceToCode`, `DataMemory`, `LoadedPairs`, `SharedWords` | everything together |
| `Example`, `OneLine`, `Counterexamples`, `DataExamples` | programs, with an input for each surprise below |
| `LineMap`, `Disassembly`, `Alu` | the line map, the listing, integer arithmetic |

Where the code does something its names or the RISC-V manual would not suggest, the model follows the code,
and a theorem says exactly when it matters: the first pass can loop forever (`PassOne.EndsIff`); fences
parse but have no code (`SourceToCode.HasCodeIffNoFence`); a jump to a data label ignores the section base
(`EndToEnd.JumpToDataLabel`, `EndToEnd.LoadedJumpMissesData`); an empty labelled directive separates parser and loader
(`Layout.CountersAgreeIff`, `DataExamples`); distinct units can share a word
(`SharedWords.ProgramsShareIff`); `la` and `li` are wrong near the ends of their ranges
(`LoadedPairs`, `AddressPairs`); the size guard wraps in tiny memories (`MemoryTheorems.AllOrNothingIff`); division by
zero gives 0 and the word divisions test the wrong width (`Alu`, against sections 7.1 and 7.2 of the
RISC-V Unprivileged ISA manual, 20191213); `addiw` has no immediate (`ImmGen.ImmRoundTrip`). The manual's
sections 2.2 and 2.3 describe the formats.

The parser's state carries four records that the program does not keep: what moved the data counter, where
in that each data label stands, the token of each instruction, and the token of each text label. They are
ghost fields of the class and exist so that theorems can say what a label stands for.

## Model

| member | source | states |
|---|---|---|
| `Accepting.AcceptedIff` | src/assembler/parser.cpp:516-690 | The assembler accepts exactly the programs: a condition on the tokens, with every operand written out. No label or mnemonic has a section word's name; data sections hold labels before directives, and directives with values; statements are new labels and mnemonics with operands of their grammar; and every jump that is open when its line is read reaches its label |
| `TextSource.ErrorsAreThose` | src/assembler/parser.cpp:516-690 | For every token list on which the assembler ends: the lines of its errors are those of the tokens in error in the first pass, then of those in the second, then of the jumps that do not reach, each in order, as found by reading the tokens once from left to right |
| `Grammar.GrammarIff` | src/common/instructions.cpp:619-818 | For every mnemonic, the operands that its line is accepted with are exactly those of a grammar written out token by token, with the bounds of every number and the labels that have to be known |
| `DataSource.FirstPassIs` | src/assembler/parser.cpp:516-554 | The record, the symbols with their addresses, and the error lines of the first pass, with or without errors, are those of one reading of the tokens |
| `TextSource.SecondPassIs` | src/assembler/parser.cpp:556-592 | So are the symbols, the number of instructions, the error lines and the open jumps of the second pass |
| `TextSource.PatchAllReports` | src/assembler/parser.cpp:594-688 | Back-patching reports exactly the open units that do not reach, in their order |
| `Accepting.PatchingAcceptsIff` | src/assembler/parser.cpp:594-688 | It reports none exactly when every open unit is a branch to a text label from 4096 bytes before to 4095 after, or a link to any label within 2^20 bytes |
| `Accepting.OneLineAcceptedIff` | src/assembler/parser.cpp:280-434 | A program of one instruction line is accepted exactly when its extension is enabled, the line is of its mnemonic's grammar and names no label to go to |
| `Acceptance.BuildIff` | src/assembler/parse_formats/i_m_formats.cpp:95-535 | Once a shape fits, its operand parser accepts exactly the operands that meet the literal bounds, gives one unit or two, and is not passed over |
| `Acceptance.OneApplies` | src/common/instructions.cpp:619-818 | No line fits two syntaxes of one mnemonic |
| `Instructions.MExtensionIsEncoded` | src/common/instructions.cpp:313-320 | The mnemonics of the M extension are those that the register format encodes with function field 1 |
| `EndToEnd.BranchReachesLabel` | src/assembler/parser.cpp:594-675 | For every program that parses without errors and loads without overlap, and every branch or jump to a text label: the word fetched at four times its index, by its immediate, leads from its own address to the label's address, and the program counter moved by that immediate fetches the first instruction after the label token |
| `EndToEnd.BranchHoldsDistance` | src/vm/vm_base.cpp:102-152 | The immediate generator applied to the loaded word gives exactly the distance to the label, through printing, bounded text field, parsing, bit scrambling, memory and sign extension |
| `EndToEnd.DataLabelReachesData` | src/vm/vm_base.cpp:32-79 | For every data label, the section base plus the label's address is where the item that follows the label is stored, whatever its type, and a number read there at its width is the number written (every labelled directive has a value) |
| `EndToEnd.DataLabelIsAtItem` | src/assembler/parser.cpp:75-112 | A data label's address in the section is the layout's start of the item after the label |
| `EndToEnd.DataLabelsCarryItems` | src/assembler/parser.cpp:63-254 | When every labelled directive is written with a value, an error-free program's labels are each directly followed by an item of their own alignment |
| `EndToEnd.JumpToDataLabel` | src/assembler/parser.cpp:645-662 | For every section base, 0 included: `jal` to a data label goes to the label's offset in the section, less one if odd; so it reaches the data exactly when the base is 0 and the offset is even |
| `EndToEnd.LoadedJumpMissesData` | src/assembler/parser.cpp:645-662 | In a loaded program, where the data stands behind the text, such a jump always lands before its data |
| `SourceToCode.HasCodeIffNoFence` | src/assembler/code_generator.cpp:309-355 | An error-free program has machine code exactly when no token of its text sections is `fence` or `fence_i`, whose lines parse but which no format has |
| `EndToEnd.AcceptedHasCode` | src/assembler/code_generator.cpp:309-355 | An error-free program has machine code exactly when the mnemonic of every unit has a format |
| `EndToEnd.Fetched` | src/vm/vm_base.cpp:23-28 | After loading, reading a word at four times an index gives the word generated for the unit at that index |
| `EndToEnd.SourceLinesAreThose` | src/assembler/parser.cpp:256-459 | The line map has exactly the keys 0 .. n-1, each with the line of the mnemonic token the instruction came from, and these are in order when the tokens are |
| `EndToEnd.LineBreakpointLands` | src/vm/vm_base.cpp:176-191 | A breakpoint asked for at a source line lands on the first instruction whose mnemonic is on that line or after it, and is refused exactly when there is none |
| `SourceToCode.CodeStandsForSource` | src/assembler/code_generator.cpp:46-307 | Every loaded word belongs to a block of words, starting at the line's first instruction, that decode to what one source line means: the mnemonic with each operand token in its role, in every format and syntax; for a line that names a label, the distance to it; for a pseudo-instruction or a load from a label, the instructions it stands for. Upper immediates keep their low twenty bits, and jump offsets all but the lowest bit |
| `SourceToCode.BranchStandsForLine` | src/assembler/parser.cpp:594-675 | A loaded branch or jump to a text label decodes to the mnemonic and registers of its line, refers to the label that the line's token names, and holds the distance from its own address to that label's |
| `LineMeaning.SpellsMeans` | src/assembler/code_generator.cpp:46-307 | Every unit that spells an instruction has a word, and the word decodes to that instruction as far as its format keeps the immediate |
| `LineMeaning.LineSpells` | src/assembler/parse_formats/i_m_formats.cpp:374-462 | Every accepted line that names no label to go to, whatever its syntax, yields complete units that spell what the line means |
| `LineMeaning.JumpSpells` | src/assembler/parse_formats/i_m_formats.cpp:251-372 | A line that names a label to go to spells, with the distance filled in, its mnemonic, registers and that distance |
| `Assembly.PatchAllArrives` | src/assembler/parser.cpp:594-675 | Back-patching without errors leaves every open unit holding the distance to its label, in reach, the label being text for a branch |
| `Coverage.TextIsComplete` | src/assembler/parser.cpp:558-592 | Nothing is dropped and nothing added: in an error-free program the mnemonic tokens of the text sections, and no others, start instructions, and the label tokens there, and no others, define text labels |
| `DataSource.DataIsComplete` | src/assembler/parser.cpp:63-254 | Reading the tokens once from left to right says which are values under which directive; the data buffer of an error-free program holds exactly the items of those, in their order |
| `DataSource.EventsAreTokens` | src/assembler/parser.cpp:63-254 | The labels and items recorded by the first pass are those of the tokens, in their order, and each data label stands where its last definition does |
| `DataMemory.ArrayReachesMemory` | src/vm/vm_base.cpp:32-79 | In a loaded program, where a label stands before a directive and values with commas between them, the bytes of the values, one value directly after the other, are at the section base plus the label's address: low bytes of numbers, bits of floats, as many zeros as `zero` asks for, characters of strings with a zero after each |
| `DataMemory.StringReachesMemory` | src/assembler/parser.cpp:219-230 | A string written with escapes is in memory at its label, character by character, with a zero after it |
| `DataItems.ItemsHoldValue` | src/assembler/parser.cpp:113-235 | The items that a value emits hold those bytes |
| `DataItems.NaturalAlignment` | src/assembler/parser.cpp:75-112 | Labels and items of a directive are aligned to its size |
| `DataPass.DirectiveNames` | src/assembler/parser.cpp:75-235 | A word is a directive exactly when it is that directive's name |
| `DataPass.KindDecides` | src/assembler/parser.cpp:113-235 | Which directives take a number, a float or a string |
| `DataPass.SectionWords` | src/assembler/parser.cpp:63-75 | The words that end a data section, and those that end the skipped text |
| `DataSource.DataTokenReachesMemory` | src/vm/vm_base.cpp:32-79 | Where a label token stands before a directive and a value token, the item of that value is at the section base plus the label's address (every labelled directive has a value, and the label is not defined again) |
| `Example.SelfLoopIsAccepted` | src/assembler/parser.cpp:516-690 | A concrete one-branch program is error-free, so the theorems about error-free programs are not empty |
| `Example.SelfLoopLoops` | src/vm/vm_base.cpp:22-79 | It loads into a fresh memory, and the word fetched at address 0 branches to address 0 |
| `OneLine.OneLineProgram` | src/assembler/parser.cpp:516-690 | If the operands of its one line parse to complete units, a program is error-free and its code is those units |
| `LoadedPairs.LoadedPairReaches` | src/assembler/parse_formats/i_m_formats.cpp:374-462 | In every loaded program, the `auipc` that an `la` or a load from a data label was expanded into, and the instruction fetched after it, lead to the section base plus the label's address exactly when the distance is at least -2^31 - 2^11 and below 2^31 - 2^11 |
| `LoadedPairs.OnlyPairsHavePairHeads` | src/assembler/parse_formats/i_m_formats.cpp:251-535 | An `auipc` that its line does not name starts an address pair of `la` or of a load from a known data label |
| `LoadedPairs.LoadedConstantLoads` | src/assembler/parse_formats/pseudo_formats.cpp:113-160 | In every loaded program, the one or two instructions of each `li` line leave the number of the line exactly when it is below 2^31 - 2^11 |
| `AddressPairs.AddressPairReaches` | src/assembler/parse_formats/pseudo_formats.cpp:27-69 | `la` and loads from a data label: upper part plus lower immediate give the label's address in memory exactly when the distance is at least -2^31 - 2^11 and below 2^31 - 2^11 |
| `AddressPairs.LoadImmediateLoads` | src/assembler/parse_formats/pseudo_formats.cpp:130-153 | `li` outside the 12-bit range: `lui` and `addi` add up to the number exactly when it is below 2^31 - 2^11 |
| `AddressPairs.SmallImmediateLoads` | src/assembler/parse_formats/pseudo_formats.cpp:121-129 | `li` in the 12-bit range is one `addi` that holds the number |
| `AddressPairs.UpperPartOf` | src/vm/rvss/rvss_vm.cpp:142-145 | The word made from any integer contributes 4096 times that integer modulo 2^32, as a signed number |
| `LineRoundTrip.LinesDecode` | src/assembler/parse_formats/i_m_formats.cpp:30-249 | Whatever operands its line gives, in every syntax that names no label, the word generated for an accepted line decodes to its mnemonic and those operands in their roles, and the unit holds nothing else |
| `LineRoundTrip.RoundedConversion` | src/assembler/parse_formats/f_d_formats.cpp:207-241 | A conversion with a rounding mode decodes to its registers and that mode |
| `LineRoundTrip.CsrLine` | src/assembler/parse_formats/csr_formats.cpp:15-97 | A CSR line decodes to its registers, CSR address and immediate |
| `LineRoundTrip.LoadLine` | src/assembler/parse_formats/i_m_formats.cpp:464-505 | A load line decodes with its offset before its base register |
| `LineRoundTrip.StoreLine` | src/assembler/parse_formats/i_m_formats.cpp:506-535 | A store line decodes with its first register as the stored one |
| `LineRoundTrip.FusedLine` | src/assembler/parse_formats/f_d_formats.cpp:15-101 | A fused multiply-add line decodes to its four registers and rounding mode |
| `LineRoundTrip.LabelLinesKeepRegisters` | src/assembler/parse_formats/i_m_formats.cpp:251-372 | A branch or jump to a label keeps its registers in their roles and the label's name |
| `LineRoundTrip.PseudosDecode` | src/assembler/parse_formats/pseudo_formats.cpp:86-265 | `nop`, `mv`, `not` and `ret` assemble to words that decode to the instructions they stand for |
| `OperandTheorems.BuildReads` | src/assembler/parse_formats/i_m_formats.cpp:1-535 | Every unit any operand parser yields has all operands its format needs, readable by the code generator |
| `OperandTheorems.BuildOk` | src/assembler/parse_formats/i_m_formats.cpp:251-372 | Every unit is of the current line and refers to no label, or aims at a text label already defined and in reach, or is an open branch or jump |
| `OperandTheorems.ReadableGenerates` | src/assembler/code_generator.cpp:46-307 | A unit with readable operands has a word exactly when its mnemonic has a format |
| `Parser.Parser.constructor` | include/assembler/parser.h:172-174 | A new parser holds the tokens and is in the start state |
| `Parser.Parser.NextToken` | src/assembler/parser.cpp:32-37 | Moves the cursor by one, but never past the end of the list; nothing else changes |
| `Parser.Parser.SkipCurrentLine` | src/assembler/parser.cpp:46-51 | Moves the cursor to the first token of another line, or the end of file; nothing else changes |
| `Parser.Parser.ReportError` | src/assembler/parser.cpp:53-56 | Records the line and counts the error twice, as the two increments of the source do |
| `Parser.Parser.AlignTo` | src/assembler/parser.cpp:64-67 | Moves the data counter up to the next multiple, in 64 bits |
| `Parser.Parser.EmplaceItem` | src/assembler/parser.cpp:120-128 | Aligns for the item, appends it and moves the counter past it |
| `Parser.Parser.DefineDataLabel` | src/assembler/parser.cpp:75-112 | Aligns for the directive that follows, or reports an error, and (re)defines the label at the counter |
| `Parser.Parser.ParseValue` | src/assembler/parser.cpp:187-215 | One value of a directive; `zero` emits as many bytes as it says and reports an error for none |
| `Parser.Parser.ParseValues` | src/assembler/parser.cpp:115-235 | All values after a directive, with the commas between them |
| `Parser.Parser.ParseDataDirective` | src/assembler/parser.cpp:63-254 | The loop over a data section leaves the state that the recursive specification gives |
| `Parser.Parser.ParseBssDirective` | src/assembler/parser.cpp:461-470 | Skips to the next section word |
| `Parser.Parser.SkipSection` | src/assembler/parser.cpp:537-544 | Skips to the word that ends a section, whatever the kind of its token |
| `Parser.Parser.EmplaceUnit` | src/assembler/parse_formats/i_m_formats.cpp:57-60 | Appends a unit under the next instruction number with its line, and lists it for back-patching if it is open |
| `Parser.Parser.EmplaceUnits` | src/assembler/parse_formats/pseudo_formats.cpp:58-66 | Appends the units of one line in order |
| `Parser.Parser.ParseOperands` | src/assembler/parser.cpp:296-428 | The syntaxes of the mnemonic are tried in order; the first whose shape fits decides |
| `Parser.Parser.ParseInstruction` | src/assembler/parser.cpp:279-445 | One mnemonic: its units are appended, or one error reported, and the rest of its line skipped |
| `Parser.Parser.DefineTextLabel` | src/assembler/parser.cpp:261-278 | Defines a text label at four times the instruction counter, or reports a redefinition and changes no symbol |
| `Parser.Parser.ParseTextDirective` | src/assembler/parser.cpp:256-459 | The loop over a text section leaves the state that the recursive specification gives |
| `Parser.Parser.FirstPass` | src/assembler/parser.cpp:520-554 | The first pass, on token lists where it ends |
| `Parser.Parser.SecondPass` | src/assembler/parser.cpp:556-592 | The second pass |
| `Parser.Parser.PatchUnit` | src/assembler/parser.cpp:594-688 | One open unit: its offset is stored if in reach, otherwise an error is reported; a branch to data is reported and still marked complete |
| `Parser.Parser.Parse` | src/assembler/parser.cpp:516-690 | Both passes and the back-patching, from a new parser |
| `PassOne.EndsIff` | src/assembler/parser.cpp:520-554 | The first pass reaches the end of file exactly when no label or mnemonic token is named `data`, `section` or `bss` |
| `Counterexamples.LabelNamedData` | src/assembler/parser.cpp:516-554 | On a label named `data` no number of iterations of the first pass reaches the end of file |
| `Counterexamples.FenceHasNoCode` | src/assembler/code_generator.cpp:309-355 | A program of one `fence` is error-free and has no machine code |
| `Counterexamples.LargestConstantIsMissed` | src/assembler/parse_formats/pseudo_formats.cpp:113-160 | `li x1, 2147483647` is error-free and loads, and its instructions leave another number |
| `Assembly.ParseIsWellAssembled` | src/assembler/parser.cpp:516-690 | Errors are counted twice each; and without errors the counter, code and line map agree, labels stand for the instructions after them, every unit is complete, and each reference holds the distance to its label in reach |
| `Assembly.TextStepKept` | src/assembler/parser.cpp:256-459 | Each step over the text keeps: the numbering and line map, the order of the instructions, the placement of labels, and every resolved offset; and leaves data and defined symbols alone |
| `Assembly.PassTwoKept` | src/assembler/parser.cpp:556-592 | So does the whole second pass |
| `Assembly.PatchAllUnits` | src/assembler/parser.cpp:594-688 | Back-patching without errors leaves every unit complete and aimed, and changes nothing but immediates |
| `Assembly.PatchAllElsewhere` | src/assembler/parser.cpp:594-688 | Back-patching leaves every unit that is not open untouched |
| `Provenance.ParseIsSourced` | src/assembler/parser.cpp:256-459 | The code consists of the blocks of units that the lines of the text sections yield, whole and in place, each read when as many instructions had been made as stand before it; back-patching changes no unit that was complete |
| `DataTheorems.RunCollected` | src/assembler/parser.cpp:63-254 | After the first pass the buffer and counter are those of the layout theory, and every data label is where the counter stood |
| `LabelCarrying.RunCarried` | src/assembler/parser.cpp:63-254 | Across all sections of the first pass, labels keep being followed by items of their alignment |
| `LabelCarrying.ItemAlignment` | src/assembler/parser.cpp:75-235 | A label is aligned for its directive as the directive's items are |
| `DataItems.ItemHoldsLowBytes` | src/assembler/parser.cpp:115-163 | The bytes of an integer item are the low bytes of its number's two's complement, lowest first |
| `DataItems.ParseEscapedString` | src/utils.cpp:90-117 | The loop computes the string with its escapes replaced |
| `DataItems.UnescapeEscape` | src/utils.cpp:90-117 | Every byte string can be written, without a line break, so that it is read back |
| `DataItems.OthersStay` | src/utils.cpp:90-117 | Unescaped characters, unknown escapes and a last backslash stand for themselves |
| `DataItems.EscapeThenRest` | src/utils.cpp:90-117 | Whatever follows a whole escape is read by itself |
| `Layout.CountersAgreeIff` | src/assembler/parser.cpp:63-254 | The 64-bit counter of the parser and the 32-bit counter of the loader place every item alike exactly when each item that follows labels starts on the alignments they asked for |
| `Layout.CarriedLabelsAgree` | src/assembler/parser.cpp:75-112 | So they agree whenever every label carries an item of its alignment |
| `DataExamples.EmptyLabelDisagrees` | src/assembler/parser.cpp:75-112 | The tokens `.data`, `.byte 7`, `x: .dword`, `y: .byte 9` are accepted, and on the record they leave the parser's counter and the loader's placement disagree |
| `DataExamples.EmptyLabelMisplacesTheNext` | src/vm/vm_base.cpp:32-79 | That program loads; `y` stands for address 8 of the section, its byte is stored at address 1, and the byte at address 8 is another |
| `DataExamples.JumpGoesToZero` | src/assembler/parser.cpp:645-662 | `x: .word 5` and `jal x0, x`: accepted for every section base, and the jump goes to address 0, so it reaches its data for base 0 only |
| `DataExamples.JumpMissesItsData` | src/assembler/parser.cpp:645-662 | With the base at 0x10000000 that program loads and the jump lands before its data |
| `Layout.LabelIsAtItem` | src/assembler/parser.cpp:75-112 | A label that carries an item has the address at which the item starts |
| `Layout.ParserFollowsLayout` | src/assembler/parser.cpp:63-254 | The parser's counter is the unbounded layout, moved up for waiting labels, modulo 2^64 |
| `Layout.StartFollowsLayout` | src/vm/vm_base.cpp:32-79 | The loader stores each item at its start in the unbounded layout, modulo 2^32 |
| `Layout.AlignUpIs` | src/assembler/parser.cpp:64-67 | Aligning gives a multiple, not smaller and less than one alignment away |
| `Layout.AlignUpLeast` | src/assembler/parser.cpp:64-67 | and the least such |
| `Loader.LoadedImage` | src/vm/vm_base.cpp:22-79 | Loading leaves each text word and each item at its place, and every other byte, padding included, as it was |
| `Loader.LoadSucceedsIff` | src/vm/vm_base.cpp:22-79 | Loading succeeds exactly when the words and the items all lie in memory, whatever its size |
| `Loader.LoadedWord` | src/vm/vm_base.cpp:23-28 | Each text word reads back |
| `Loader.LoadedItem` | src/vm/vm_base.cpp:38-79 | Each item's bytes are at its place and each number reads back at its width |
| `Loader.ItemsAreApart` | src/vm/vm_base.cpp:34-37 | No item overlaps an earlier one |
| `Vm.VmBase.LoadProgram` | src/vm/vm_base.cpp:22-86 | Text, the breakpoint at its end, then data; the memory and the failure are those of the loading specification |
| `Vm.VmBase.LoadTextSection` | src/vm/vm_base.cpp:23-30 | The text loop, its counter, the program size and the breakpoint at the end |
| `Vm.VmBase.LoadDataSection` | src/vm/vm_base.cpp:32-79 | The data loop with its own aligning 32-bit counter |
| `Vm.VmBase.LoadItem` | src/vm/vm_base.cpp:38-78 | One item of each alternative of the variant |
| `Vm.VmBase.LoadString` | src/vm/vm_base.cpp:71-77 | The characters of a string, byte by byte |
| `Vm.VmBase.UpdateProgramCounter` | src/vm/vm_base.cpp:92-94 | The counter moves by the value modulo 2^64 and nothing else changes |
| `Vm.AdvanceAndReturn` | src/vm/vm_base.cpp:92-94 | Moving by a value and by its negative returns to the same counter |
| `Vm.VmBase.AddBreakpoint` | src/vm/vm_base.cpp:176-203 | Adds the address the request stands for, once; an unknown line or unaligned address changes nothing |
| `Vm.VmBase.RemoveBreakpoint` | src/vm/vm_base.cpp:205-233 | Removes exactly that address |
| `Vm.VmBase.CheckBreakpoint` | src/vm/vm_base.cpp:235-237 | The search through the vector finds the address exactly when it is one of the breakpoints |
| `Vm.BreakpointsBehaveAsASet` | src/vm/vm_base.cpp:176-237 | Adding and removing act as on a set without repetitions, and removing undoes adding exactly when the breakpoint was new |
| `Vm.RequestsTakeEffect` | src/vm/vm_base.cpp:176-232 | A request for an address takes effect exactly when it is a multiple of four, a request for a line exactly when the line has an instruction, and then at four times its number; nothing else changes |
| `LineMap.Build` | src/assembler/assembler.cpp:56-72 | The nested loops compute the map from lines to instructions |
| `LineMap.Domain` | src/assembler/assembler.cpp:56-72 | Its domain is exactly the lines, from 1 on, that some instruction is at or after |
| `LineMap.GaloisIff` | src/assembler/assembler.cpp:56-72 | It is adjoint to the instruction-to-line map exactly when the instructions come in the order of their lines |
| `LineMap.BreakpointLands` | src/vm/vm_base.cpp:176-191 | A line breakpoint lands on the first instruction at or after the line, and is refused exactly when there is none |
| `Disassembly.Dump` | src/utils.cpp:335-382 | The loop writes the rows of the listing, records for each instruction the line its row is on, and pads every address to enough digits |
| `Disassembly.HexDigits` | src/utils.cpp:338-341 | The width loop gives the fewest hexadecimal digits, at least one, that the address fits in |
| `Disassembly.CollectHeadings` | src/utils.cpp:324-333 | Text labels by address, the later of two at one address, and `start` at 0 if there is none |
| `Disassembly.RecordedLines` | src/utils.cpp:343-379 | The recorded line is where the row stands in the whole listing, its label's heading is on the line before, and later instructions are on later lines |
| `Disassembly.HeadingsAre` | src/utils.cpp:324-333 | Headings stand at address 0 and at the text labels and nowhere else, show the last text label of their address, and `start` at address 0 if it has none |
| `Disassembly.ListingShows` | src/utils.cpp:335-378 | Each instruction is on the line after its predecessor's, but for a heading and a blank row where a label is, and shows four times its index, its word if there is one, and its unit |
| `Disassembly.OpensWithHeading` | src/utils.cpp:331-357 | The listing opens with a heading for address 0 |
| `Encoder.GenerateMachineCode` | src/assembler/code_generator.cpp:309-355 | The dispatch loop collects one word per unit, or what the first unit without a word throws |
| `Encoder.GenerateAllAt` | src/assembler/code_generator.cpp:309-355 | A program has code exactly when each unit has, and the words are the units' words in order |
| `Decoder.DecodeEncode` | src/assembler/code_generator.cpp:46-307 | A decoder recovers mnemonic and all operands from the word of every well-formed instruction, across the seventeen formats |
| `Decoder.EncodeInjective` | src/assembler/code_generator.cpp:46-307 | No two distinct well-formed instructions share a word |
| `Decoder.GenerateThenDecode` | src/assembler/code_generator.cpp:42-307 | From the texts of a unit to its word and back to its operands |
| `Decoder.GenerateInjective` | src/assembler/code_generator.cpp:42-307 | Whatever letters their registers are written with and whatever their lines, two well-formed units share a word exactly when they are the same instruction with the same operand numbers |
| `SharedWords.ProgramsShareIff` | src/assembler/code_generator.cpp:42-307 | Any two instructions of any two programs have the same word exactly when they have the same mnemonic and the same operands as far as the format keeps them; their units are then equal but for line and label exactly when each register is in the same file and the immediates are the same; and the files can only differ for eight conversions |
| `SharedWords.LineFiles` | src/common/instructions.cpp:619-818 | Every mnemonic but fcvt.w.d, fcvt.wu.d, fcvt.l.d, fcvt.lu.d, fcvt.d.w, fcvt.d.wu, fcvt.s.d and fcvt.d.s has each register operand in one file, whatever the syntax of its line |
| `Counterexamples.SwappedFilesCollide` | src/common/instructions.cpp:802-813 | Each of those eight, for all register numbers, gives two error-free programs with the same word from different units, such as `fcvt.w.d x1, f2` and `fcvt.w.d f1, x2, dyn` |
| `Counterexamples.UpperImmediatesCollide` | src/assembler/parse_formats/pseudo_formats.cpp:130-153 | `lui x1, 1048575` and `li x1, -4096` are error-free programs with the same word from units with different immediates |
| `Decoder.WordDecodes` | src/common/instructions.cpp:379-585 | Format by format, the word keeps the operands and its opcode and function fields tell the mnemonic |
| `FloatClass.ClassesAreExclusive` | src/common/instructions.cpp:915-966 | No word is taken for both single and double precision |
| `FloatClass.ClassMatchesTable` | src/common/instructions.cpp:915-966 | On every encoded instruction the two predicates give the precision the mnemonic is listed under, except that a fused multiply-add is taken for neither |
| `ImmGen.ImmRoundTrip` | src/vm/vm_base.cpp:102-152 | The generator applied to an encoded I, S, B, U, J or FP load/store instruction returns its immediate; for `addiw` it returns 0 |
| `ImmGen.ImmOfShift` | src/vm/vm_base.cpp:107-115 | For a shift by a constant it also returns the function bits, and for a word shift it returns 0 |
| `ImmGen.ImmOfEveryWord` | src/vm/vm_base.cpp:96-170 | On every word, encoded or not, the generator gives the decoder's field of the word's opcode, and 0 for every other opcode |
| `ImmGen.SignExtendIsTwosComplement` | src/vm/vm_base.cpp:96-99 | Exclusive or, then subtract, in 32-bit unsigned arithmetic is two's-complement sign extension at every width |
| `Text.StoiToText` | src/assembler/code_generator.cpp:42-62 | Parsing the printed form of any `int` gives it back |
| `Text.ImmFieldHolds` | include/assembler/code_generator.h:136-139 | The 32-character immediate field holds every printed 64-bit integer whole |
| `Text.ClipIsIdentity` | include/assembler/code_generator.h:112-139 | A bounded field loses nothing exactly when the text fits and has no NUL |
| `Units.ICUnit.constructor` | include/assembler/code_generator.h:38-45 | A new unit is empty but for its mnemonic and line |
| `Units.ICUnit.Copy` | src/assembler/parser.cpp:595-595 | A copy reads back as the stored unit |
| `Units.ICUnit.SetRd` | include/assembler/code_generator.h:112-115 | Only the destination text changes, to the value cut to its field |
| `Units.ICUnit.SetRs1` | include/assembler/code_generator.h:117-120 | Likewise for the first source |
| `Units.ICUnit.SetRs2` | include/assembler/code_generator.h:122-125 | Likewise for the second source |
| `Units.ICUnit.SetRs3` | include/assembler/code_generator.h:127-130 | Likewise for the third source |
| `Units.ICUnit.SetImm` | include/assembler/code_generator.h:136-139 | Likewise for the immediate |
| `Units.ICUnit.GetImm` | include/assembler/code_generator.h:181-183 | Reads the immediate's characters up to the first NUL |
| `Units.CopyBounded` | include/assembler/code_generator.h:112-139 | The bounded copy into a character array reads back as the value cut at its first NUL and at the field |
| `MainMemory.Memory.constructor` | include/vm/main_memory.h:91-97 | A new memory has no blocks |
| `MainMemory.Memory.Reset` | include/vm/main_memory.h:99-101 | Forgets every block and nothing else |
| `MainMemory.Memory.Read` | src/vm/main_memory.cpp:21-31 | The byte at an address, zero where no block is, an error past the memory size |
| `MainMemory.Memory.Write` | src/vm/main_memory.cpp:33-41 | Stores one byte, creating its block, or changes nothing |
| `MainMemory.Memory.EnsureBlockExists` | src/vm/main_memory.cpp:55-59 | A missing block appears full of zeros; a present one stays |
| `MainMemory.Memory.ReadGeneric` | src/vm/main_memory.cpp:61-68 | Assembles the bytes lowest first, or fails as the first failing read does |
| `MainMemory.Memory.WriteGeneric` | src/vm/main_memory.cpp:70-75 | Stores the bytes lowest first until one fails |
| `MainMemory.Memory.LoadSized` | src/vm/main_memory.cpp:77-103 | The sized reads with their guards |
| `MainMemory.Memory.StoreSized` | src/vm/main_memory.cpp:131-157 | The sized writes with their guards |
| `MainMemory.BlockDivision` | src/vm/main_memory.cpp:43-49 | Block number and offset are quotient and remainder |
| `MemoryTheorems.FreshRunRefines` | src/vm/main_memory.cpp:21-75 | For any positive block size and any sequence of reads, writes and resets, a new memory observes what a flat zero-filled byte map observes |
| `MemoryTheorems.RunRefines` | src/vm/main_memory.cpp:21-75 | The same from any state, and exactly the blocks written since the last reset are present, each at full length |
| `MemoryTheorems.ReadOverWrite` | src/vm/main_memory.cpp:61-75 | At every pair of widths and every overlap, a read after a write is the byte-wise merge of old and new, across block boundaries |
| `MemoryTheorems.ReadBack` | src/vm/main_memory.cpp:61-75 | Reading at the address and width of a write gives the value back |
| `MemoryTheorems.GuardIsExact` | src/vm/main_memory.cpp:84-157 | The guard rejects exactly the accesses that do not lie wholly below the memory size |
| `MemoryTheorems.AllOrNothingIff` | src/vm/main_memory.cpp:131-157 | Sized writes are all-or-nothing exactly when the memory is empty or has at least n - 1 bytes |
| `MemoryTheorems.PartialWrite` | src/vm/main_memory.cpp:131-157 | In a smaller memory the guard wraps around and a failing write has changed a byte |
| `Bytes.FromToBytes` | src/vm/main_memory.cpp:61-75 | Assembling the bytes of a value of any width gives the value |
| `Alu.FlagsAreExact` | src/vm/alu.cpp:45-79 | For add, subtract and multiply the signed result is exact exactly when the flag is clear |
| `Alu.WordFlagsAreExact` | src/vm/alu.cpp:52-124 | Likewise for the word forms |
| `Alu.WideProducts` | src/vm/alu.cpp:73-116 | Each high variant with the low half from `kMul` gives the exact 128-bit product: signed, signed by unsigned, unsigned |
| `Alu.SignedDivision` | src/vm/alu.cpp:125-176 | The signed pair is undefined exactly on overflow of the remainder, and is truncating division exactly when the divisor is not 0 |
| `Alu.UnsignedDivision` | src/vm/alu.cpp:149-183 | The unsigned pair divides exactly when the divisor is not 0 |
| `Alu.SignedWordDivision` | src/vm/alu.cpp:137-176 | The signed word pair: the remainder is also undefined when only the divisor's low half is 0 |
| `Alu.UnsignedWordDivision` | src/vm/alu.cpp:156-190 | The unsigned word pair: undefined exactly when the low half is 0 and the divisor is not; otherwise it divides the low halves |
| `Alu.DivisionIsUnique` | src/vm/alu.cpp:125-190 | The division identity determines quotient and remainder |
| `Alu.WordsAreTruncations` | src/vm/alu.cpp:52-209 | `addw`, `subw`, `mulw` and `sllw` are their wide counterparts cut to the low half and sign-extended |
| `Alu.WordShiftsRight` | src/vm/alu.cpp:210-227 | `srlw` and `sraw` are the wide shifts of the zero- or sign-extended low half |
| `Alu.OnlyLowHalvesMatter` | src/vm/alu.cpp:52-227 | These word operations depend only on the low halves of their operands |
| `Alu.HighHalfOfDivisorMatters` | src/vm/alu.cpp:156-190 | The other three do so exactly when the divisor is 0 or its low half is not |
| `Alu.DivideByTwo32` | src/vm/alu.cpp:156-162 | `divuw` by 2^32 passes the test for zero and divides by 0, where the low half of that divisor gives 0 |
| `Alu.SumsAreUnsigned` | src/vm/alu.cpp:47-72 | Sums and differences are the unsigned ones modulo 2^64, also when they overflow, and undo each other |
| `Alu.LessIsSignOfDifference` | src/vm/alu.cpp:228-232 | `slt` is the sign of the difference, corrected by its overflow flag |
| `Alu.UnsignedLess` | src/vm/alu.cpp:233-235 | `sltu` is `slt` with both sign bits flipped, and the borrow of the difference |
| `Alu.ShiftDoubles` | src/vm/alu.cpp:201-204 | Each step of a left shift doubles |
| `Alu.ShiftsRightDivide` | src/vm/alu.cpp:211-223 | Right shifts by every amount divide by a power of two and round down, unsigned and signed |
| `Alu.ShiftAmounts` | src/vm/alu.cpp:200-227 | Shift amounts count modulo 64, those of word shifts modulo 32 |
| `Alu.SpecialQuotients` | src/vm/alu.cpp:125-190 | All eight divisions by zero give 0, and the overflowing quotients their result and the flag |
| `Alu.OnlyOverflowSetsTheFlag` | src/vm/alu.cpp:73-235 | Besides sums, differences and products only an overflowing quotient sets the flag |

## Left out

- Parser.Parser.Parse: requires that no label or mnemonic token is named `data`, `section` or `bss`; on other token lists the original does not end, which `PassOne.EndsIff` proves.
- Parser.Parser.ParseOperands: the twenty-four operand parsers are functions from tokens to units, not methods that fill an `ICUnit` object field by field; the setters of that object are modelled and proved on their own, save its instruction index, mnemonic text, CSR number, rounding mode and label, which are plain assignments or never too long.
- Parser.Parser.ReportError: an error is its line; messages, columns and the typed error list are not modelled, and the error counter does not wrap around.
- Vm.VmBase.LoadProgram: the state dump and console output are not modelled.
- MainMemory.Memory.LoadSized: one method stands for the four integer widths; the float and double accessors read and write the same bytes, and the forwarding memory controller is not modelled.
- MainMemory.Memory.constructor: block size and memory size are fixed when the memory is made; re-reading the configuration for each new block is not modelled.
- Disassembly.Dump: rows are values (heading, address, word, unit); their exact characters, padding and colours are not modelled.
- LineMap.Build: line numbers are unbounded; a line of 2^32 - 1 would keep the original's inner loop going.
- EndToEnd.LineBreakpointLands: assumes the tokens are in the order of their lines, as the lexer delivers them.
- The lexer: a token carries the mnemonic, register number, integer, float bits or string bytes that its text stands for; aliases missing from the register table, regular expressions and library number conversion are not modelled.
- The mnemonic membership sets are disjoint, so each mnemonic is listed under its one format; of two equal keys in a table initialiser only the first counts, as in the original container.
- `std::stoi` skips leading white space; no text in a unit has any.
- The instruction counter is unbounded; four times it wraps at 2^32, as in the original.
- Signed overflow that C++ leaves undefined in the program counter update and in `__int128` products is taken to wrap around.
- Bitwise and, or, exclusive or of the arithmetic unit: nothing to say beyond the operators.
- Floating-point arithmetic and flags, which rest on the host: floating-point instructions are assembled, encoded and classified, not executed.
- The single-cycle and pipelined machines, their control units, hazards, forwarding, branch prediction, undo and redo; system calls.
- Register files, CSR access, caches, device stubs, configuration, command line, threads and input queue.
- Printing, JSON dumps and ELF output.
