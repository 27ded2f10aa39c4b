# SVM — a verified model of the simple virtual machine's core

SVM is a small 16-bit virtual machine written in Ruby. It comes with a
two-pass assembler for its instruction set. This project models three parts
of it in Dafny and proves properties of the model:

- **The instruction codec** (`instruction_set.dfy`, module `InstructionSet`).
  - The opcode table: sixteen mnemonics, `MOV` = 0 through `EXTENDED` = 15.
  - The memory constants.
  - The packing of (opcode:4, regX:2, regY:2) into the first byte of every
    four-byte instruction word, and the unpacking back.
- **The assembler** (`assembler.dfy`, module `Assembly`).
  - Pass one walks the source lines. It skips blank and comment lines, binds
    labels, and applies the `.org`, `.const` and `.data` directives. It
    records every other line, together with the address the line will occupy.
  - Pass two encodes every recorded line as
    `[opcode byte, 0, value high byte, value low byte]`. It resolves operands
    against the symbol table as that table stands at the end of pass one.
    The words are written into a zero-filled image of 4096 cells.
  - Both passes are pure functions (`FirstPassFrom`, `SecondPassSpec`,
    `AssembleFrom`). The class `Assembler` has the source's fields and
    methods, and each method is proved against the matching function.
- **The virtual machine** (`vm.dfy`, module `VM`).
  - The state: a memory of cells, four 16-bit registers, PC, SP, the
    `running` flag and the counter of consecutive `MOV R0, #0`.
  - One step (`Step`): fetch, decode, the blank-code guard, then the
    instruction's effect (`Execute`).
  - The stack's word push and pop, and the interrupts.
  - Runs bounded by fuel (`Steps`, `RunFrom`).
  - The class `VirtualMachine` updates its fields in place: `memory` as a
    growable `seq`, the registers as an `array`. `Run`,
    `ExecuteInstruction` and the per-opcode group methods are each proved
    equal to the functional step or run.

Two support files:

- `text.dfy` models the Ruby string operations the assembler relies on:
  `strip`, `split`, `each_line`, `gsub(',', '')`, `to_i`, the label pattern
  and the decimal pattern.
- `bits.dfy` defines `&` and `|` on naturals, together with the mask, shift
  and disjoint-or lemmas the codec needs.

`wrappers.dfy` holds `Option` and `Result`. A `Failure` stands for each
`raise` of the source.

`integration.dfy` connects the two halves. Take an assembled image loaded at
the program start of a new machine. At the address of every instruction that
no later one writes over, the machine fetches the opcode of the line's
mnemonic, the line's register fields and its operand value modulo 2^16.

All source paths below are relative to the repository root.

## Model

| member | source | states |
|---|---|---|
| InstructionSet.OpcodeNumber | lib/svm/assembler.rb:4-8 | a name has an opcode exactly when it is one of the sixteen mnemonics, and that opcode is the name's position in the list (below 16) |
| InstructionSet.OpcodeNumbering | lib/svm/instruction_set.rb:10-15 | the table numbers the sixteen mnemonics 0..15 in the listed order, and no other name has a number |
| InstructionSet.MaskOpcode | lib/svm/instruction_set.rb:17-19 | `opcode & 0x0F` is opcode mod 16, and equals the opcode when the opcode is below 16 |
| InstructionSet.MaskRegister | lib/svm/instruction_set.rb:21-23 | `reg & 0x03` is reg mod 4, and equals reg when reg is below 4 |
| InstructionSet.ShiftOpcode | lib/svm/instruction_set.rb:25-27 | the shifted opcode has its low four bits clear, shifting back recovers it, and a 4-bit opcode stays inside a byte |
| InstructionSet.ShiftRegX | lib/svm/instruction_set.rb:29-31 | the shifted register has bits 0..1 clear, shifting back recovers it, and a 2-bit register stays below 16 |
| InstructionSet.CombineOpcodeByte | lib/svm/instruction_set.rb:33-42 | the opcode byte is below 256 and equals (opcode mod 16)·16 + (regX mod 4)·4 + regY mod 4 |
| InstructionSet.PackFields | lib/svm/instruction_set.rb:41 | ORing the shifted fields is adding them, because their bits are disjoint |
| InstructionSet.SplitOpcodeByte | lib/svm/instruction_set.rb:45-50 | the three fields are bits 4..7, bits 2..3 and bits 0..1 of the byte; each is within its width |
| InstructionSet.FieldsOfSum | lib/svm/instruction_set.rb:45-50 | reading the fields out of o·16 + x·4 + y gives back o, x and y |
| InstructionSet.SplitCombine | lib/svm/instruction_set.rb:33-50 | splitting a combined byte gives back the masked fields, which are the fields themselves when in range |
| InstructionSet.ByteFields | lib/svm/instruction_set.rb:45-50 | every byte is the sum of its three fields, each shifted into place |
| InstructionSet.CombineSplit | lib/svm/instruction_set.rb:33-50 | combining the split fields of any byte gives back the byte |
| Text.TrimLeft | lib/svm/assembler.rb:27 | the result is a suffix of the input, every dropped character is whitespace or NUL, and the first kept one is not |
| Text.TrimRight | lib/svm/assembler.rb:27 | the result is a prefix of the input, every dropped character is whitespace or NUL, and the last kept one is not |
| Text.Strip | lib/svm/assembler.rb:27 | a stripped line is no longer than the input and neither starts nor ends with whitespace or NUL |
| Text.StripUnchanged | lib/svm/assembler.rb:27 | a line that neither starts nor ends with whitespace is its own strip |
| Text.StripNewline | lib/svm/assembler.rb:26-27 | the line terminator that `each_line` keeps is removed by `strip` |
| Text.WordCharPrefix | lib/svm/assembler.rb:30 | the longest prefix of word characters: all word characters, followed by the end or by a non-word character |
| Text.StartsWithLabelOf | lib/svm/assembler.rb:30 | `name:` followed by anything matches the label pattern when name is made of word characters |
| Text.WordPrefix | lib/svm/assembler.rb:36 | the first word is a space-free prefix that ends at a space or at the end, and is non-empty when the text does not start with a space |
| Text.Words | lib/svm/assembler.rb:36 | `split` yields only non-empty words without whitespace |
| Text.WordsHead | lib/svm/assembler.rb:36-37 | a text that starts with a non-space has a first word that starts with the same character |
| Text.WordsAfterSpace | lib/svm/assembler.rb:36 | leading whitespace does not change the words |
| Text.WordPrefixOf | lib/svm/assembler.rb:36 | a space-free word followed by a space or the end is the first word |
| Text.WordsOfWordThen | lib/svm/assembler.rb:36 | a word followed by a space and more text splits into that word and the words of the rest |
| Text.WordsJoin | lib/svm/assembler.rb:36 | splitting words that were joined by single spaces gives back exactly those words |
| Text.NewlineIndex | lib/svm/assembler.rb:26 | the position of the first newline, or the end when there is none |
| Text.Lines | lib/svm/assembler.rb:26 | the lines of a text: at least one, none containing a newline |
| Text.LinesJoin | lib/svm/assembler.rb:26 | joining the lines with newlines gives back the text, so `each_line` loses no character apart from how lines are delimited |
| Text.NewlineIndexOf | lib/svm/assembler.rb:26 | in `l + "\n" + rest`, where l has no newline, the first newline is at the end of l |
| Text.LinesCons | lib/svm/assembler.rb:26 | a newline-free line followed by a newline is the first line, and the lines of the rest follow it |
| Text.RemoveCommas | lib/svm/assembler.rb:81 | the result has no comma, holds exactly the non-comma characters of the input, and a comma-free operand is unchanged |
| Text.RemoveCommasTrailing | lib/svm/assembler.rb:81 | a trailing comma, as in `R0,`, makes no difference |
| Text.LeadingDigits | lib/svm/assembler.rb:65-71 | `to_i` reads the longest prefix of decimal digits |
| Text.DigitValue | lib/svm/assembler.rb:65-71 | a digit character's value is below ten |
| Text.DigitChar | lib/svm/assembler.rb:112-113 | the digit character for d is a digit whose value is d |
| Text.DecimalString | lib/svm/assembler.rb:112-113 | the decimal numeral of n consists of digits only |
| Text.LeadingDigitsOf | lib/svm/assembler.rb:65-71 | digits followed by a non-digit are the leading digits |
| Text.DecimalRoundTrip | lib/svm/assembler.rb:113 | the value of the decimal numeral of n is n |
| Text.ToIDecimal | lib/svm/assembler.rb:109-113 | `to_i` of n's numeral is n, and `to_i` of `-` followed by n's numeral is −n |
| Text.Numeral | lib/svm/assembler.rb:65-71 | an integer's numeral is a non-empty single word without `#`, comma or surrounding whitespace |
| Text.NumeralToI | lib/svm/assembler.rb:65-71 | `to_i` of any integer's numeral gives back the integer |
| Assembly.RegisterNumber | lib/svm/assembler.rb:10 | a name has a register number exactly when it is R0..R3, and that number is its position |
| Assembly.ImmediateNotRegister | lib/svm/assembler.rb:88-91 | an operand starting with `#` is never a register name |
| Assembly.ParseRegister | lib/svm/assembler.rb:103-107 | R0..R3 parse to 0..3, and any other operand fails with invalid register, in both directions |
| Assembly.ParseRegisterNames | lib/svm/assembler.rb:103-107 | each register name parses to its own number |
| Assembly.ParseValue | lib/svm/assembler.rb:109-119 | a value fails exactly when the operand is neither `#…`, nor all digits, nor a defined symbol, and the error is undefined symbol |
| Assembly.ParseImmediate | lib/svm/assembler.rb:110-111 | `#` followed by any integer's numeral reads back that integer, whatever the symbol table holds |
| Assembly.ParseDecimal | lib/svm/assembler.rb:112-113 | a decimal numeral reads back its number |
| Assembly.ParseSymbol | lib/svm/assembler.rb:114-115 | a defined name that is neither immediate nor decimal reads as its symbol-table value |
| Assembly.RemoveAllCommas | lib/svm/assembler.rb:81 | every operand has its commas removed, and the number of operands is kept |
| Assembly.ParseOperands | lib/svm/assembler.rb:78-101 | register fields are below 4; one operand gives zero registers; two give a value or a second register, never both; zero operands or more than three give all zeros (each field in terms of the register and value parses is OperandsByCount) |
| Assembly.ReadOperands | lib/svm/assembler.rb:84-97 | the same bounds as ParseOperands, for operands already free of commas |
| Assembly.RegisterOperandCommas | lib/svm/assembler.rb:81 | `Rn,` loses its comma and becomes the register name |
| Assembly.ImmediateCommas | lib/svm/assembler.rb:81 | an immediate operand has no comma to lose |
| Assembly.OperandsValue | lib/svm/assembler.rb:84-85 | `#n` alone parses to registers 0, 0 and value n |
| Assembly.OperandsRegisterValue | lib/svm/assembler.rb:86-91 | `Rx, #n` parses to register x, register 0 and value n |
| Assembly.OperandsRegisters | lib/svm/assembler.rb:86-89 | `Rx, Ry` parses to registers x and y and value 0 |
| Assembly.OperandsThree | lib/svm/assembler.rb:93-96 | `Rx, Ry, #n` parses to x, y and n |
| Assembly.OperandsBadRegister | lib/svm/assembler.rb:86-96 | with two or three operands, a first operand that is not a register fails with invalid register |
| Assembly.OperandsByCount | lib/svm/assembler.rb:78-101 | for every operand list, with commas removed: one operand gives (0, 0, its value); a register then a register gives (x, y, 0); a register then anything else gives (x, 0, its value); three give (x, y, value); each succeeds exactly when those parses do, and a failure is the first operand's error in reading order |
| Assembly.OperandsSymbol | lib/svm/assembler.rb:84-85 | a single operand that is a defined name, not an immediate or numeral, gives (0, 0, the name's value) |
| Assembly.OperandsRegisterSymbol | lib/svm/assembler.rb:86-92 | `Rx, name` with a defined name that is not a register gives (x, 0, the name's value) |
| Assembly.OperandsRegisterDecimal | lib/svm/assembler.rb:86-92 | `Rx, n` with a decimal numeral gives (x, 0, n) |
| Assembly.RegisterOperandTail | lib/svm/assembler.rb:86-92 | `Rx,` then a comma-free operand that is not a register reads that operand as the value |
| Assembly.ExampleJump | spec/svm/assembler_spec.rb:27-40 | `JMP START` with START at 4 gives the value 4 |
| Assembly.ExampleConstant | spec/svm/assembler_spec.rb:44-55 | `MOV R1, FIVE` with FIVE bound to 5 gives (1, 0, 5) |
| Assembly.ExampleStore | spec/svm/assembler_spec.rb:9-22 | `STORE R0, 100` gives (0, 0, 100) |
| Assembly.CombineOpcodeByte | lib/svm/assembler.rb:121-123 | the assembler's own copy of the opcode-byte packing equals the shared codec's |
| Assembly.CopiesAgree | lib/svm/assembler.rb:121-123 | the assembler's expression, with its different masking order, computes the codec's byte |
| Assembly.HighByte | lib/svm/assembler.rb:56 | `(value >> 8) & 0xFF` is a byte |
| Assembly.LowByte | lib/svm/assembler.rb:57 | `value & 0xFF` is a byte |
| Assembly.ValueBytes | lib/svm/assembler.rb:56-57 | high byte · 256 + low byte is the value modulo 2^16, negative values included |
| Assembly.Word | lib/svm/assembler.rb:54-57 | an instruction word is four bytes with a zero padding byte |
| Assembly.EncodeInstruction | lib/svm/assembler.rb:48-57 | an encoded line is four bytes |
| Assembly.EncodeDecode | lib/svm/assembler.rb:48-57 | decoding an encoded word gives the mnemonic's opcode and the operands' registers, a zero padding byte, and the value modulo 2^16 |
| Assembly.EncodeUnknown | lib/svm/assembler.rb:49-51 | a line whose first token is not a mnemonic fails with unknown instruction |
| Assembly.Directive | lib/svm/assembler.rb:61-76 | no directive records an instruction; a directive fails exactly when it is not `.org`, `.const` or `.data`, with unknown directive |
| Assembly.OrgDirective | lib/svm/assembler.rb:64-65 | `.org n` sets the address to n and changes nothing else |
| Assembly.ConstDirective | lib/svm/assembler.rb:66-69 | `.const name n` binds name to n and leaves the address alone |
| Assembly.DataDirective | lib/svm/assembler.rb:70-72 | `.data n` moves the address on by n |
| Assembly.LineStep | lib/svm/assembler.rb:27-42 | a line records at most one instruction, and only by appending; a recorded instruction is the stripped line at the current address, which then moves on by four while the symbols stay as they were |
| Assembly.FirstPassFrom | lib/svm/assembler.rb:25-44 | pass one only ever appends to the recorded instructions |
| Assembly.BlankOrCommentLine | lib/svm/assembler.rb:28 | blank and comment lines change nothing |
| Assembly.LabelLineKeepsAddress | lib/svm/assembler.rb:30-34 | a label line binds its label to the current address and changes nothing else |
| Assembly.LabelLine | lib/svm/assembler.rb:30-34 | `name:` binds name to the current address |
| Assembly.LabelNameOf | lib/svm/assembler.rb:30-31 | `name:` is stripped already, matches the label pattern, and names name |
| Assembly.DirectiveLine | lib/svm/assembler.rb:36-38 | a line starting with a dot is its directive's effect |
| Assembly.DotNotLabel | lib/svm/assembler.rb:30-37 | a line that starts with a dot never matches the label pattern, so it reaches the directive test |
| Assembly.InstructionLine | lib/svm/assembler.rb:39-41 | any other line is recorded at the current address, and the address moves on by four |
| Assembly.OrgLine | lib/svm/assembler.rb:61-65 | the line `.org n` sets the address to n |
| Assembly.ConstLine | lib/svm/assembler.rb:66-69 | the line `.const name n` binds name to n |
| Assembly.DataLine | lib/svm/assembler.rb:70-72 | the line `.data n` moves the address on by n |
| Assembly.UnknownDirectiveLine | lib/svm/assembler.rb:73-74 | an unknown directive line stops pass one with unknown directive |
| Assembly.Zeros | lib/svm/assembler.rb:14 | the initial machine code is 4096 zero cells |
| Assembly.WriteWord | lib/svm/assembler.rb:54-57 | writing a word sets its four cells and leaves every other cell and the size alone |
| Assembly.EncodeAll | lib/svm/assembler.rb:47-53 | a successful encoding has one word per recorded line, at the line's address, and it is the line's own encoding |
| Assembly.EncodeAllFailure | lib/svm/assembler.rb:47-53 | a failed pass two reports the error of one of its lines |
| Assembly.FirstMisfit | lib/svm/assembler.rb:54-57 | finds the first word outside the image, or none exactly when all fit |
| Assembly.WriteAll | lib/svm/assembler.rb:47-58 | writing all words keeps the image's size |
| Assembly.SecondPassSpec | lib/svm/assembler.rb:46-59 | a successful pass two keeps the image's size |
| Assembly.EncodedWords | lib/svm/assembler.rb:54-57 | every encoded word is four bytes |
| Assembly.WriteAllUntouched | lib/svm/assembler.rb:47-58 | a cell that no word covers keeps its value |
| Assembly.WriteAllBytes | lib/svm/assembler.rb:47-58 | bytes written into an image of bytes leave an image of bytes |
| Assembly.DropLastWord | lib/svm/assembler.rb:47-58 | the words before the last still fit the image |
| Assembly.SplitWords | lib/svm/assembler.rb:47-58 | both halves of a list of words that fit still fit |
| Assembly.FitsSameSize | lib/svm/assembler.rb:54-57 | words that fit one image fit every image of the same size |
| Assembly.WriteAllAppend | lib/svm/assembler.rb:47-58 | writing p then q is writing p + q |
| Assembly.WriteAllWord | lib/svm/assembler.rb:47-58 | a word that no later word overlaps is in the final image |
| Assembly.PrefixWrite | lib/svm/assembler.rb:47-58 | writing k + 1 words is writing k words and then word k |
| Assembly.LaterApart | lib/svm/assembler.rb:47-58 | the later words stay apart from word k |
| Assembly.UntouchedWord | lib/svm/assembler.rb:47-58 | four cells that no word overlaps keep their values |
| Assembly.WriteWordAt | lib/svm/assembler.rb:54-57 | a written word reads back from its four cells |
| Assembly.SecondPassWrites | lib/svm/assembler.rb:46-59 | a successful pass two writes every encoded word, each of them fitting the image |
| Assembly.SecondPassBytes | lib/svm/assembler.rb:46-59 | a successful pass two keeps the size, and keeps an image of bytes made of bytes |
| Assembly.SecondPassUntouched | lib/svm/assembler.rb:46-59 | after pass two, every cell that no recorded line reaches is as it was |
| Assembly.SecondPassWords | lib/svm/assembler.rb:46-59 | after pass two, every recorded line that no later one overwrites holds its own encoded word |
| Assembly.EncodedEntry | lib/svm/assembler.rb:47-53 | entry k of the encoding is line k's word, at line k's address |
| Assembly.PlacedNotOverwritten | lib/svm/assembler.rb:47-57 | a line that is not overwritten gives a word that is not overwritten |
| Assembly.AssembleImage | lib/svm/assembler.rb:19-59 | a successful assembly is 4096 bytes; it is zero where no instruction reaches; every instruction that is not overwritten holds its own word, encoded with the final symbol table, so forward references resolve |
| Assembly.ZeroImagePass | lib/svm/assembler.rb:46-59 | pass two over 4096 zero cells gives 4096 bytes, zero wherever no instruction reaches, and every instruction not written over holds its own encoded word |
| Assembly.EncodeAllExtend | lib/svm/assembler.rb:47-53 | encoding one more line that encodes extends the words by that line's word |
| Assembly.EncodeAllStops | lib/svm/assembler.rb:51 | the first line that fails to encode is the error of every longer prefix |
| Assembly.EncodeFailureOutcome | lib/svm/assembler.rb:47-53 | the first line that fails to encode is pass two's error |
| Assembly.WrittenFit | lib/svm/assembler.rb:54-57 | a word that fits is written into the image |
| Assembly.WrittenMisfit | lib/svm/assembler.rb:54-57 | a word that does not fit is reported and not written |
| Assembly.WrittenAfterMisfit | lib/svm/assembler.rb:54-57 | after the first misfit, nothing more is written |
| Assembly.WrittenStep | lib/svm/assembler.rb:47-58 | one more word keeps the loop's bookkeeping in line with pass two |
| Assembly.WrittenOutcome | lib/svm/assembler.rb:46-59 | once every line has encoded, the loop's outcome is pass two's result |
| Assembly.Assembler.constructor | lib/svm/assembler.rb:12-17 | no symbols, address 0, nothing recorded, 4096 zero cells |
| Assembly.Assembler.ProcessDirective | lib/svm/assembler.rb:61-76 | the fields change as Directive says, and an unknown directive changes nothing |
| Assembly.Assembler.ProcessLine | lib/svm/assembler.rb:26-43 | the fields change as LineStep says, and an error changes nothing |
| Assembly.Assembler.ProcessLabel | lib/svm/assembler.rb:30-34 | a label line changes the fields as LineStep says: the label is bound to the current address |
| Assembly.Assembler.ProcessTokens | lib/svm/assembler.rb:36-42 | a directive or instruction line changes the fields as LineStep says, and an error changes nothing |
| Assembly.Assembler.ProcessInstruction | lib/svm/assembler.rb:39-41 | the line joins the recorded instructions at the current address, the address moves on by four, and the symbol table is unchanged |
| Assembly.Assembler.FirstPass | lib/svm/assembler.rb:25-44 | the fields end as FirstPassFrom says, or the first error is returned |
| Assembly.Assembler.SecondPass | lib/svm/assembler.rb:46-59 | the machine code becomes SecondPassSpec's image, or its error is returned |
| Assembly.Assembler.PlaceWord | lib/svm/assembler.rb:54-57 | one encoded word keeps the pass-two bookkeeping: written while nothing has misfit and it fits, recorded as the error when it is the first misfit |
| Assembly.Assembler.WriteCells | lib/svm/assembler.rb:54-57 | the four cells written in place are WriteWord of the old machine code |
| Assembly.Assembler.Assemble | lib/svm/assembler.rb:19-23 | the result is AssembleFrom of the assembler's earlier state and earlier machine code |
| VM.FreshValid | lib/svm/virtual_machine.rb:12-23 | a new machine has 4096 zero cells and four 16-bit registers |
| VM.Mask16 | lib/svm/virtual_machine.rb:58-70 | `& 0xFFFF` yields a 16-bit value, and is the identity on 16-bit values |
| VM.Mask16IsAnd | lib/svm/virtual_machine.rb:58-70 | masking to 16 bits is bitwise AND with 0xFFFF |
| VM.WriteCell | lib/svm/virtual_machine.rb:27 | a write inside the memory replaces one cell; one past the end appends a cell; any other index fails |
| VM.LoadContents | lib/svm/virtual_machine.rb:26-28 | a program loaded from a start inside the memory, or just past its end, sits at the start; the other cells are kept; the memory grows as far as the program reaches; anywhere else a non-empty program fails |
| VM.Fetch | lib/svm/virtual_machine.rb:39-43 | the fetch succeeds exactly when four cells exist at the PC; fields are in range; the immediate is high byte · 256 + low byte |
| VM.ImmediateBytes | lib/svm/virtual_machine.rb:43 | high shifted left by 8 and ORed with a byte low is high · 256 + low |
| VM.Push | lib/svm/virtual_machine.rb:136-141 | a push succeeds exactly when both cells can be written, and changes only SP and memory (which cells it writes is PushWrites) |
| VM.PushWrites | lib/svm/virtual_machine.rb:136-141 | a push moves SP down by 2, puts the 16-bit value's high byte at the new SP + 1 and its low byte at the new SP + 2, keeps every other cell (the program below the stack included), and grows the memory only as far as those two cells need |
| VM.Pop | lib/svm/virtual_machine.rb:143-148 | a pop succeeds exactly when both cells exist; SP moves up by two; the value is 16-bit |
| VM.PushPop | lib/svm/virtual_machine.rb:136-148 | a pushed value pops back masked to 16 bits, with SP back where it was |
| VM.WordBytes | lib/svm/virtual_machine.rb:139-140 | a 16-bit value is its high byte · 256 plus its low byte |
| VM.Reverse | lib/svm/virtual_machine.rb:136-148 | element i of the reversal is element n−1−i |
| VM.MaskAll | lib/svm/virtual_machine.rb:137 | every value masked to 16 bits |
| VM.PopAllFrame | lib/svm/virtual_machine.rb:143-148 | pops read only SP and the cells above it |
| VM.PushAllPopAll | lib/svm/virtual_machine.rb:136-148 | last in, first out: n pushes then n pops give the values back reversed and masked, with SP restored |
| VM.FrameAfterPush | lib/svm/virtual_machine.rb:136-141 | a push leaves the cells above the old SP unchanged |
| VM.Interrupt | lib/svm/virtual_machine.rb:107-122 | codes above 4 fail with unknown interrupt; the others leave memory, registers, PC and SP alone |
| VM.Advance | lib/svm/virtual_machine.rb:101-102 | PC moves on by four; the machine keeps running exactly when it was running and the new PC is below 4096 |
| VM.Execute | lib/svm/virtual_machine.rb:55-102 | an executed instruction keeps four registers and leaves the blank counter alone |
| VM.Step | lib/svm/virtual_machine.rb:38-103 | a step keeps four registers |
| VM.Iterate | lib/svm/virtual_machine.rb:31-36 | a run of any step function that keeps four registers keeps four registers |
| VM.IterateStopped | lib/svm/virtual_machine.rb:33 | a stopped machine is not stepped |
| VM.IterateCompose | lib/svm/virtual_machine.rb:33-35 | iterating a + b times is iterating a times and then b more |
| VM.IterateKeeps | lib/svm/virtual_machine.rb:33-35 | an invariant of every successful step holds after a run |
| VM.StepClosed | lib/svm/virtual_machine.rb:38-103 | a step is defined on every four-register machine and keeps four registers |
| VM.Steps | lib/svm/virtual_machine.rb:33-35 | a run keeps four registers |
| VM.StepsUnfold | lib/svm/virtual_machine.rb:33-35 | a running machine with fuel left takes one step and then runs on |
| VM.StepKeepsValid | lib/svm/virtual_machine.rb:38-103 | every step keeps every register within 16 bits |
| VM.ExecuteKeepsValid | lib/svm/virtual_machine.rb:55-99 | every instruction keeps every register within 16 bits |
| VM.RunKeepsValid | lib/svm/virtual_machine.rb:31-36 | a whole run keeps every register within 16 bits |
| VM.PushKeepsCells | lib/svm/virtual_machine.rb:136-141 | a push writes only 16-bit cells (in fact bytes) |
| VM.ExecuteKeepsCells | lib/svm/virtual_machine.rb:69-94 | STORE, CALL and PUSH write only 16-bit cells |
| VM.RunKeepsCells | lib/svm/virtual_machine.rb:31-36 | a run started with 16-bit cells keeps every cell within 16 bits |
| VM.MoveResult | lib/svm/virtual_machine.rb:56-58 | MOV writes the masked immediate when regY is 0, and register regY otherwise; nothing else but PC changes |
| VM.AddResult | lib/svm/virtual_machine.rb:59-60 | ADD writes (x + y) mod 2^16; nothing else but PC changes |
| VM.SubResult | lib/svm/virtual_machine.rb:61-62 | SUB writes (x − y) mod 2^16, the two's complement when negative |
| VM.MulResult | lib/svm/virtual_machine.rb:63-64 | MUL writes (x · y) mod 2^16 |
| VM.DivResult | lib/svm/virtual_machine.rb:65-66 | DIV writes x / y, truncated, and leaves x when y is 0 |
| VM.StoreThenLoad | lib/svm/virtual_machine.rb:67-70 | a STORE followed by a LOAD of the same cell copies the whole 16-bit register |
| VM.CallThenReturn | lib/svm/virtual_machine.rb:84-90 | CALL jumps and pushes the return address; a RET at the target returns to the next instruction with SP restored |
| VM.BlankGuard | lib/svm/virtual_machine.rb:47-53 | a second `MOV R0, #0` in a row fails with its count; a first one runs and sets the count to 1; any other instruction resets it |
| VM.BlankTwice | lib/svm/virtual_machine.rb:47-53 | two `MOV R0, #0` in a row fail at the second with count 2 |
| VM.StepControl | lib/svm/virtual_machine.rb:55-102 | where each opcode leaves PC and the running flag: taken jumps, CALL and RET set PC and leave the flag; the others advance by four and stop at the end of memory; INT 0 stops; EXTENDED changes only the counter |
| VM.RunStopped | lib/svm/virtual_machine.rb:33 | a stopped machine runs no further |
| VM.RunCompose | lib/svm/virtual_machine.rb:33-35 | a run of a + b steps is a run of a steps and then of b |
| VM.RunMoreFuel | lib/svm/virtual_machine.rb:33-35 | once a run has stopped the machine, more fuel changes nothing |
| VM.FreshRunsBlank | lib/svm/virtual_machine.rb:47-53 | running a new machine with empty memory fails at the second step with count 2 |
| VM.VirtualMachine.constructor | lib/svm/virtual_machine.rb:12-23 | the fields are those of the new machine Fresh |
| VM.VirtualMachine.LoadProgram | lib/svm/virtual_machine.rb:26-28 | the memory becomes LoadCells of the old memory and nothing else changes, or the program does not fit and the error is returned |
| VM.VirtualMachine.Run | lib/svm/virtual_machine.rb:31-36 | the fields end as RunFrom says, or its error is returned |
| VM.VirtualMachine.ExecuteInstruction | lib/svm/virtual_machine.rb:38-103 | the fields change as Step says, or its error is returned |
| VM.VirtualMachine.Dispatch | lib/svm/virtual_machine.rb:55-102 | the fields change as Execute says for the decoded instruction |
| VM.VirtualMachine.Arithmetic | lib/svm/virtual_machine.rb:56-66 | MOV, ADD, SUB, MUL and DIV change the fields as Execute says |
| VM.VirtualMachine.MemoryAccess | lib/svm/virtual_machine.rb:67-70 | LOAD and STORE change the fields as Execute says |
| VM.VirtualMachine.Branch | lib/svm/virtual_machine.rb:71-83 | JMP, JEQ and JNE change the fields as Execute says |
| VM.VirtualMachine.Subroutine | lib/svm/virtual_machine.rb:84-90 | CALL and RET change the fields as Execute says |
| VM.VirtualMachine.StackAccess | lib/svm/virtual_machine.rb:91-94 | PUSH and POP change the fields as Execute says |
| VM.VirtualMachine.SetRegister | lib/svm/virtual_machine.rb:58 | exactly one register is replaced |
| VM.VirtualMachine.AdvancePc | lib/svm/virtual_machine.rb:101-102 | the fields change as Advance says |
| VM.VirtualMachine.HandleInterrupt | lib/svm/virtual_machine.rb:107-122 | the fields change as Interrupt says |
| VM.VirtualMachine.PushWord | lib/svm/virtual_machine.rb:136-141 | the fields change as Push says |
| VM.VirtualMachine.PopWord | lib/svm/virtual_machine.rb:143-148 | the fields and the value are Pop's |
| Integration.LoadedImage | lib/svm/virtual_machine.rb:26-28 | an image loaded at 2048 into a new machine lies at 2048 + a in a memory of 6144 cells, with zeros below 2048 |
| Integration.LoadedInstructionDecodes | lib/svm/assembler.rb:46-59 | after assembling and loading at 2048, every instruction that is not overwritten fetches as its mnemonic's opcode, its operands' registers and its value modulo 2^16 |
| Integration.LoadedLineDecodes | lib/svm/virtual_machine.rb:39-43 | a line's encoded word, loaded at 2048, fetches as the line's fields |
| Integration.ImageHoldsWord | lib/svm/assembler.rb:54-57 | the assembled image holds a line that is not overwritten as its encoded word |
| Integration.LoadedFetch | lib/svm/virtual_machine.rb:39-43 | fetching in a loaded image yields the fields of the word stored there |
| Integration.LoadedWord | lib/svm/virtual_machine.rb:27 | a word of the image sits 2048 cells further on once loaded |
| Integration.FetchWord | lib/svm/virtual_machine.rb:39-43 | four byte cells at PC fetch as their opcode-byte fields and immediate |

## Left out

- Input and output:
  - Interrupt 1's `puts` is modelled as appending R0 to the `output` sequence.
  - Interrupts 2, 3 and 4 read the terminal or print memory, so they change no state in the model. Interrupts 2 and 4 store what they read (`getc`, `gets`) into memory in the source, and the model does not capture that store.
  - The TTY and socket connections are not part of this model.
- The debug output is not modelled. This covers `debug_instruction` and the `puts` calls in `parse_operands` (lib/svm/assembler.rb:82, 99). They print only.
- The commented-out examples at the end of both files are not modelled. This covers `example_assembler_call` (lib/svm/assembler.rb:126-150) and the comment block after the machine class. Neither is called by the core.
- The machine's own `split_opcode_byte`/`combine_opcode_byte` copies (lib/svm/virtual_machine.rb:124-133) are not separate members. They are the same expressions as the codec's, and the machine uses `InstructionSet.SplitOpcodeByte`. The assembler's copy is modelled separately, and `Assembly.CopiesAgree` proves it equal.
- Memory cells are natural numbers. A program containing negative values, or strings such as those `getc` stores, is outside the model.
- Negative indices are not modelled. Ruby indexes a negative position from the end of the array; the model treats every negative index as out of range. This applies to the fetch, LOAD, STORE, the stack, `load_program` and the assembler's writes.
- Writes with a gap are not modelled. Ruby fills a gap with `nil` when a write lands beyond the end plus one; the model makes such a STORE, push or load an error. A write exactly one past the end grows the memory, as in the source.
- Fetches and pops past the end are modelled as errors. In the source they read `nil`, and the following shift or OR raises. The model reports `FetchOutOfRange` or `StackOutOfRange` instead.
- VM.Execute: a LOAD past the end reports `LoadOutOfRange`, an error the source never raises. In Ruby, `nil & 0xFFFF` is `false` (lib/svm/virtual_machine.rb:68), so Rx holds `false` and the run goes on: INT 1 outputs `false`, and only a later arithmetic use of Rx raises. Registers are 16-bit naturals in the model, so it has no value for `false`.
- After a `raise`, the model reports the error and says nothing about the partly updated state the Ruby object is left in.
- Assembly.SecondPassSpec: a word that lands outside the 4096-cell image is reported as `AddressOutOfRange`, an error that exists only in the model. Ruby would grow the array instead. The error is reported only after every line has encoded, so encoding errors come first.
- Text.ToI models `to_i` on the tokens the assembler produces: an optional sign, then leading digits, with anything else reading as 0. Leading whitespace, underscores and other radix prefixes that Ruby's `to_i` also accepts are not modelled.
- Label lines are modelled as written. A line such as `loop: MOV R0, #1` matches the label pattern, so it binds the label `loop: MOV R0, #` and is not assembled as an instruction (`Assembly.LabelLineKeepsAddress`).
- `each_line` is modelled as splitting at every newline (`Text.Lines`). Ruby keeps the newline on each line and yields no empty last line. Both differences vanish after `strip` and the blank-line skip.
- `.const` without a name binds Ruby's `nil` key, which `parse_value` can never look up. The model skips the binding.
- VM.VirtualMachine.Run: `run` loops for as long as the machine runs, which may be forever. The model runs at most `fuel` steps, and the run lemmas (`RunCompose`, `RunMoreFuel`) relate different fuel amounts.
- `execute_instruction`'s `case` is split into group methods (Arithmetic, MemoryAccess, Branch, Subroutine, StackAccess). The guard `unless @PC != instruction_pc` is not a test in the model. It always holds for the opcodes that reach it, because the jumps that change the PC return early.
- `VM.Execute` computes MUL and DIV with the recursive `Bits.Times` and `Bits.Quotient`, and `MulResult` and `DivResult` prove them equal to `*` and `/`. The registers are never negative, so Ruby's floored division and truncation agree.
- VM.Mask16: the contract states the bound and the identity on 16-bit values. The equality with bitwise AND is proved separately in `VM.Mask16IsAnd`.
