/** The two-pass assembler. Pass one walks the source lines, building the
    symbol table and the list of instruction lines with the address each one
    will occupy; pass two encodes every recorded line as a four-byte word of a
    zero-filled image of 4096 cells. */
module Assembly {
  import opened Bits
  import opened Wrappers
  import opened Text
  import IS = InstructionSet

  /** The ways assembling fails; each stands for one `raise` of the source. */
  datatype AsmError =
    | UnknownInstruction(mnemonic: string)
    | UnknownDirective(directive: string)
    | InvalidRegister(operand: string)
    | UndefinedSymbol(operand: string)
    | AddressOutOfRange(address: int)

  /** The register names; each register's number is its position here. */
  const Registers: seq<string> := ["R0", "R1", "R2", "R3"]

  /** The register table. */
  function RegisterNumber(name: string): (r: Option<nat>)
    ensures r.Some? ==> r.value < 4 && Registers[r.value] == name
    ensures r.None? <==> name !in Registers
  {
    if name == "R0" then Some(0) else if name == "R1" then Some(1)
    else if name == "R2" then Some(2) else if name == "R3" then Some(3)
    else None
  }

  /** An immediate operand is never a register name. */
  lemma {:induction false} ImmediateNotRegister(operand: string)
    requires operand != [] && operand[0] == '#'
    ensures RegisterNumber(operand) == None
  {
    forall i | 0 <= i < |Registers|
      ensures Registers[i] != operand
    {
      assert Registers[i][0] == 'R';
    }
  }

  /** A register operand: one of R0 .. R3, and an error for anything else. */
  function ParseRegister(operand: string): (r: Result<nat, AsmError>)
    ensures r.Success? ==> r.value < 4 && Registers[r.value] == operand
    ensures r.Failure? <==> operand !in Registers
    ensures r.Failure? ==> r.error == InvalidRegister(operand)
  {
    match RegisterNumber(operand)
    case Some(n) => Success(n)
    case None => Failure(InvalidRegister(operand))
  }

  /** Every register name parses to its own number. */
  lemma {:induction false} ParseRegisterNames()
    ensures forall i :: 0 <= i < |Registers| ==> ParseRegister(Registers[i]) == Success(i)
  {
  }

  /** A value operand, tried in this order: `#` and an integer, a decimal
      numeral, a name from the symbol table; anything else is undefined. */
  function ParseValue(operand: string, labels: map<string, int>): (r: Result<int, AsmError>)
    ensures r.Failure? <==>
              (operand == [] || operand[0] != '#') && !AllDigits(operand) && operand !in labels
    ensures r.Failure? ==> r.error == UndefinedSymbol(operand)
  {
    if |operand| > 0 && operand[0] == '#' then Success(ToI(operand[1..]))
    else if AllDigits(operand) then Success(ToI(operand))
    else if operand in labels then Success(labels[operand])
    else Failure(UndefinedSymbol(operand))
  }

  /** An immediate operand reads back the integer it was written from, whatever
      the symbol table holds. */
  lemma {:induction false} ParseImmediate(n: int, labels: map<string, int>)
    ensures ParseValue("#" + Numeral(n), labels) == Success(n)
  {
    assert ("#" + Numeral(n))[1..] == Numeral(n);
    NumeralToI(n);
  }

  /** A bare numeral is read as a number even when the symbol table binds the
      same text: numbers take precedence over names. */
  lemma {:induction false} ParseDecimal(n: nat, labels: map<string, int>)
    ensures ParseValue(DecimalString(n), labels) == Success(n)
  {
    ToIDecimal(n);
  }

  /** A name that is neither an immediate nor a numeral is looked up in the
      symbol table. */
  lemma {:induction false} ParseSymbol(name: string, labels: map<string, int>)
    requires name in labels && (name == [] || name[0] != '#') && !AllDigits(name)
    ensures ParseValue(name, labels) == Success(labels[name])
  {
  }

  /** The register fields and the value of an instruction's operands. */
  datatype Operands = Operands(regX: nat, regY: nat, value: int)

  /** Every operand with its commas removed. */
  function RemoveAllCommas(tokens: seq<string>): (r: seq<string>)
    ensures |r| == |tokens| && forall i :: 0 <= i < |tokens| ==> r[i] == RemoveCommas(tokens[i])
  {
    if tokens == [] then [] else [RemoveCommas(tokens[0])] + RemoveAllCommas(tokens[1..])
  }

  /** The operands of an instruction, once commas are removed, read by their
      number: one is a value; two are a register and then a register or a
      value; three are two registers and a value; any other number reads as
      all zeros. Errors come in reading order. */
  function ParseOperands(tokens: seq<string>, labels: map<string, int>): (r: Result<Operands, AsmError>)
    ensures r.Success? ==> r.value.regX < 4 && r.value.regY < 4
    ensures |tokens| == 1 && r.Success? ==> r.value.regX == 0 && r.value.regY == 0
    ensures |tokens| == 2 && r.Success? ==> r.value.regY == 0 || r.value.value == 0
    ensures |tokens| == 0 || |tokens| > 3 ==> r == Success(Operands(0, 0, 0))
  {
    ReadOperands(RemoveAllCommas(tokens), labels)
  }

  /** ParseOperands on operands already free of commas. */
  function ReadOperands(ops: seq<string>, labels: map<string, int>): (r: Result<Operands, AsmError>)
    ensures r.Success? ==> r.value.regX < 4 && r.value.regY < 4
    ensures |ops| == 1 && r.Success? ==> r.value.regX == 0 && r.value.regY == 0
    ensures |ops| == 2 && r.Success? ==> r.value.regY == 0 || r.value.value == 0
  {
    if |ops| == 1 then
      var v :- ParseValue(ops[0], labels);
      Success(Operands(0, 0, v))
    else if |ops| == 2 then
      var x :- ParseRegister(ops[0]);
      match RegisterNumber(ops[1])
      case Some(y) => Success(Operands(x, y, 0))
      case None =>
        var v :- ParseValue(ops[1], labels);
        Success(Operands(x, 0, v))
    else if |ops| == 3 then
      var x :- ParseRegister(ops[0]);
      var y :- ParseRegister(ops[1]);
      var v :- ParseValue(ops[2], labels);
      Success(Operands(x, y, v))
    else
      Success(Operands(0, 0, 0))
  }

  /** A register name written with a trailing comma, as in `R1,`. */
  function RegisterOperand(x: nat): string
    requires x < 4
  {
    Registers[x] + ","
  }

  lemma {:induction false} RegisterOperandCommas(x: nat)
    requires x < 4
    ensures RemoveCommas(RegisterOperand(x)) == Registers[x]
    ensures RemoveCommas(Registers[x]) == Registers[x]
  {
    RemoveCommasTrailing(Registers[x]);
  }

  lemma {:induction false} ImmediateCommas(n: int)
    ensures RemoveCommas("#" + Numeral(n)) == "#" + Numeral(n)
    ensures ',' !in "#" + Numeral(n)
  {
  }

  /** `#n` alone is the value n with both register fields 0. */
  lemma {:induction false} OperandsValue(n: int, labels: map<string, int>)
    ensures ParseOperands(["#" + Numeral(n)], labels) == Success(Operands(0, 0, n))
  {
    ImmediateCommas(n);
    ParseImmediate(n, labels);
  }

  /** `Rx, #n` is register x and the value n, with regY 0. */
  lemma {:induction false} OperandsRegisterValue(x: nat, n: int, labels: map<string, int>)
    requires x < 4
    ensures ParseOperands([RegisterOperand(x), "#" + Numeral(n)], labels) == Success(Operands(x, 0, n))
  {
    var imm := "#" + Numeral(n);
    RegisterOperandCommas(x);
    ImmediateCommas(n);
    ParseImmediate(n, labels);
    var ops := RemoveAllCommas([RegisterOperand(x), imm]);
    assert ops[0] == Registers[x] && ops[1] == imm;
    ParseRegisterNames();
    assert ParseRegister(ops[0]) == Success(x);
    ImmediateNotRegister(imm);
  }

  /** `Rx, Ry` is the two registers, with value 0. */
  lemma {:induction false} OperandsRegisters(x: nat, y: nat, labels: map<string, int>)
    requires x < 4 && y < 4
    ensures ParseOperands([RegisterOperand(x), Registers[y]], labels) == Success(Operands(x, y, 0))
  {
    RegisterOperandCommas(x);
    RegisterOperandCommas(y);
    var ops := RemoveAllCommas([RegisterOperand(x), Registers[y]]);
    assert ops[0] == Registers[x] && ops[1] == Registers[y];
    ParseRegisterNames();
    assert ParseRegister(ops[0]) == Success(x);
    assert RegisterNumber(ops[1]) == Some(y);
  }

  /** `Rx, Ry, #n` is both registers and the value. */
  lemma {:induction false} OperandsThree(x: nat, y: nat, n: int, labels: map<string, int>)
    requires x < 4 && y < 4
    ensures ParseOperands([RegisterOperand(x), RegisterOperand(y), "#" + Numeral(n)], labels)
         == Success(Operands(x, y, n))
  {
    var imm := "#" + Numeral(n);
    RegisterOperandCommas(x);
    RegisterOperandCommas(y);
    ImmediateCommas(n);
    ParseImmediate(n, labels);
    var ops := RemoveAllCommas([RegisterOperand(x), RegisterOperand(y), imm]);
    assert ops[0] == Registers[x] && ops[1] == Registers[y] && ops[2] == imm;
    ParseRegisterNames();
    assert ParseRegister(ops[0]) == Success(x);
    assert ParseRegister(ops[1]) == Success(y);
  }

  /** With two or three operands, a first operand that is not a register is an
      error, whatever follows. */
  lemma {:induction false} OperandsBadRegister(tokens: seq<string>, labels: map<string, int>)
    requires 2 <= |tokens| <= 3 && RemoveCommas(tokens[0]) !in Registers
    ensures ParseOperands(tokens, labels) == Failure(InvalidRegister(RemoveCommas(tokens[0])))
  {
  }

  /** The operands by their number, once commas are removed: each field is
      the register or value its position calls for, and a failure is the
      first operand in reading order that does not parse. */
  lemma {:induction false} OperandsByCount(tokens: seq<string>, labels: map<string, int>)
    ensures var ops, r := RemoveAllCommas(tokens), ParseOperands(tokens, labels);
            |tokens| == 1 ==>
              (r.Success? <==> ParseValue(ops[0], labels).Success?) &&
              (r.Success? ==> r.value == Operands(0, 0, ParseValue(ops[0], labels).value)) &&
              (r.Failure? ==> r.error == ParseValue(ops[0], labels).error)
    ensures var ops, r := RemoveAllCommas(tokens), ParseOperands(tokens, labels);
            |tokens| == 2 && ops[1] in Registers ==>
              (r.Success? <==> ops[0] in Registers) &&
              (r.Success? ==> r.value == Operands(RegisterNumber(ops[0]).value, RegisterNumber(ops[1]).value, 0)) &&
              (r.Failure? ==> r.error == InvalidRegister(ops[0]))
    ensures var ops, r := RemoveAllCommas(tokens), ParseOperands(tokens, labels);
            |tokens| == 2 && ops[1] !in Registers ==>
              (r.Success? <==> ops[0] in Registers && ParseValue(ops[1], labels).Success?) &&
              (r.Success? ==> r.value == Operands(RegisterNumber(ops[0]).value, 0, ParseValue(ops[1], labels).value)) &&
              (r.Failure? ==> r.error == if ops[0] !in Registers then InvalidRegister(ops[0])
                                         else ParseValue(ops[1], labels).error)
    ensures var ops, r := RemoveAllCommas(tokens), ParseOperands(tokens, labels);
            |tokens| == 3 ==>
              (r.Success? <==> ops[0] in Registers && ops[1] in Registers && ParseValue(ops[2], labels).Success?) &&
              (r.Success? ==> r.value == Operands(RegisterNumber(ops[0]).value, RegisterNumber(ops[1]).value,
                                                  ParseValue(ops[2], labels).value)) &&
              (r.Failure? ==> r.error == if ops[0] !in Registers then InvalidRegister(ops[0])
                                         else if ops[1] !in Registers then InvalidRegister(ops[1])
                                         else ParseValue(ops[2], labels).error)
  {
    var ops := RemoveAllCommas(tokens);
    assert ParseOperands(tokens, labels) == ReadOperands(ops, labels);
  }

  /** A name bound in the symbol table, alone, is the value it is bound to,
      as in `JMP START`. */
  lemma {:induction false} OperandsSymbol(name: string, labels: map<string, int>)
    requires name in labels && (name == [] || name[0] != '#') && !AllDigits(name) && ',' !in name
    ensures ParseOperands([name], labels) == Success(Operands(0, 0, labels[name]))
  {
    OperandsByCount([name], labels);
    assert RemoveAllCommas([name])[0] == name;
    ParseSymbol(name, labels);
  }

  /** `Rx, name` is register x and the name's value, with regY 0, as in
      `MOV R1, FIVE`. */
  lemma {:induction false} OperandsRegisterSymbol(x: nat, name: string, labels: map<string, int>)
    requires x < 4 && name in labels && (name == [] || name[0] != '#') && !AllDigits(name)
    requires ',' !in name && name !in Registers
    ensures ParseOperands([RegisterOperand(x), name], labels) == Success(Operands(x, 0, labels[name]))
  {
    RegisterOperandTail(x, name, labels);
    ParseSymbol(name, labels);
  }

  /** `Rx, n` with a decimal numeral is register x and the value n, as in
      `STORE R0, 100`. */
  lemma {:induction false} OperandsRegisterDecimal(x: nat, n: nat, labels: map<string, int>)
    requires x < 4
    ensures ParseOperands([RegisterOperand(x), DecimalString(n)], labels) == Success(Operands(x, 0, n))
  {
    var d := DecimalString(n);
    assert IsDigit(d[0]);
    assert ',' !in d by {
      forall i | 0 <= i < |d|
        ensures d[i] != ','
      {
        assert IsDigit(d[i]);
      }
    }
    assert d !in Registers by {
      forall i | 0 <= i < |Registers|
        ensures Registers[i] != d
      {
        assert Registers[i][0] == 'R';
      }
    }
    RegisterOperandTail(x, d, labels);
    ParseDecimal(n, labels);
  }

  /** A register with its comma, then a comma-free operand that is not a
      register, reads the operand as a value. */
  lemma {:induction false} RegisterOperandTail(x: nat, operand: string, labels: map<string, int>)
    requires x < 4 && ',' !in operand && operand !in Registers
    ensures ParseValue(operand, labels).Success? ==>
              ParseOperands([RegisterOperand(x), operand], labels) ==
              Success(Operands(x, 0, ParseValue(operand, labels).value))
  {
    var ops := RemoveAllCommas([RegisterOperand(x), operand]);
    RegisterOperandCommas(x);
    assert ops[0] == Registers[x] && ops[1] == operand;
    ParseRegisterNames();
    assert RegisterNumber(ops[0]) == Some(x);
    OperandsByCount([RegisterOperand(x), operand], labels);
  }

  /** `JMP START`'s operand, with START at address 4. */
  lemma {:induction false} ExampleJump()
    ensures ParseOperands(["START"], map["START" := 4]) == Success(Operands(0, 0, 4))
  {
    assert !IsDigit("START"[0]);
    OperandsSymbol("START", map["START" := 4]);
  }

  /** `MOV R1, FIVE`'s operands, with FIVE bound to 5. */
  lemma {:induction false} ExampleConstant()
    ensures ParseOperands(["R1,", "FIVE"], map["FIVE" := 5]) == Success(Operands(1, 0, 5))
  {
    assert !IsDigit("FIVE"[0]);
    assert "FIVE" != Registers[0] && "FIVE" != Registers[1] && "FIVE" != Registers[2] && "FIVE" != Registers[3];
    assert RegisterOperand(1) == "R1,";
    OperandsRegisterSymbol(1, "FIVE", map["FIVE" := 5]);
  }

  /** `STORE R0, 100`'s operands. */
  lemma {:induction false} ExampleStore()
    ensures ParseOperands(["R0,", "100"], map[]) == Success(Operands(0, 0, 100))
  {
    assert DecimalString(1) == [DigitChar(1)] == "1";
    assert DecimalString(10) == DecimalString(1) + [DigitChar(0)] == "10";
    assert DecimalString(100) == DecimalString(10) + [DigitChar(0)] == "100";
    assert RegisterOperand(0) == "R0,";
    OperandsRegisterDecimal(0, 100, map[]);
  }

  /** The assembler's own copy of the opcode-byte packing: the opcode shifted
      left by four and masked to the high nibble, ORed with the two low bits of
      regX shifted left by two and the two low bits of regY. It computes the
      same byte as the instruction set's. */
  function CombineOpcodeByte(opcode: nat, regX: nat, regY: nat): (b: nat)
    ensures b == IS.CombineOpcodeByte(opcode, regX, regY)
  {
    CopiesAgree(opcode, regX, regY);
    Or(Or(And(opcode * 16, 0xF0), And(regX, 0x03) * 4), And(regY, 0x03))
  }

  lemma {:induction false} CopiesAgree(opcode: nat, regX: nat, regY: nat)
    ensures Or(Or(And(opcode * 16, 0xF0), And(regX, 0x03) * 4), And(regY, 0x03))
         == IS.CombineOpcodeByte(opcode, regX, regY)
  {
    Pow2Values();
    var o, x, y := IS.MaskOpcode(opcode), IS.MaskRegister(regX), IS.MaskRegister(regY);
    AndShiftedMask(opcode * 16, 4, 4);
    DivModUnique(opcode * 16, 16, opcode, 0);
    assert And(opcode * 16, 0xF0) == IS.ShiftOpcode(o);
    AndLowMask(regX, 2);
    assert And(regX, 0x03) * 4 == IS.ShiftRegX(x);
    AndLowMask(regY, 2);
    assert And(regY, 0x03) == y;
  }

  /** Bits 8 .. 15 of a value, in two's complement for a negative one. */
  function HighByte(v: int): (b: nat)
    ensures b < 256
  {
    (v / 256) % 256
  }

  /** Bits 0 .. 7 of a value, in two's complement for a negative one. */
  function LowByte(v: int): (b: nat)
    ensures b < 256
  {
    v % 256
  }

  /** The two value bytes, read big-endian, are the value modulo 2^16. */
  lemma {:induction false} ValueBytes(v: int)
    ensures HighByte(v) * 256 + LowByte(v) == v % 0x1_0000
  {
    var q := v / 256;
    assert v == 256 * q + v % 256;
    assert q == 256 * (q / 256) + q % 256;
    DivModUnique(v, 0x1_0000, q / 256, 256 * (q % 256) + v % 256);
  }

  /** The word written for an instruction: the opcode byte, a zero padding
      byte and the two value bytes. */
  function Word(opcode: nat, ops: Operands): (w: seq<nat>)
    ensures |w| == 4 && w[1] == 0 && forall i :: 0 <= i < 4 ==> w[i] < 256
  {
    [CombineOpcodeByte(opcode, ops.regX, ops.regY), 0, HighByte(ops.value), LowByte(ops.value)]
  }

  /** The word pass two writes for one recorded line: its first token is the
      mnemonic and the rest are the operands. */
  function EncodeInstruction(line: string, labels: map<string, int>): (r: Result<seq<nat>, AsmError>)
    ensures r.Success? ==> |r.value| == 4 && forall i :: 0 <= i < 4 ==> r.value[i] < 256
  {
    var tokens := Words(line);
    var mnemonic := if tokens == [] then [] else tokens[0];
    match IS.OpcodeNumber(mnemonic)
    case None => Failure(UnknownInstruction(mnemonic))
    case Some(opcode) =>
      var ops :- ParseOperands(tokens[1..], labels);
      Success(Word(opcode, ops))
  }

  /** Decoding an encoded word gives back what the line said: the opcode of its
      mnemonic and the register fields of its operands in the opcode byte, a
      zero padding byte, and the value modulo 2^16 in the last two bytes. */
  lemma {:induction false} EncodeDecode(line: string, labels: map<string, int>)
    requires EncodeInstruction(line, labels).Success?
    ensures var tokens, w := Words(line), EncodeInstruction(line, labels).value;
            |tokens| > 0 && IS.OpcodeNumber(tokens[0]).Some? &&
            ParseOperands(tokens[1..], labels).Success? &&
            var ops := ParseOperands(tokens[1..], labels).value;
            IS.SplitOpcodeByte(w[0]) == IS.Fields(IS.OpcodeNumber(tokens[0]).value, ops.regX, ops.regY) &&
            w[1] == 0 && w[2] * 256 + w[3] == ops.value % 0x1_0000
  {
    var tokens := Words(line);
    assert IS.OpcodeNumber([]).None?;
    var opcode := IS.OpcodeNumber(tokens[0]).value;
    var ops := ParseOperands(tokens[1..], labels).value;
    IS.SplitCombine(opcode, ops.regX, ops.regY);
    ValueBytes(ops.value);
  }

  /** A line whose first token is not a mnemonic is an unknown instruction. */
  lemma {:induction false} EncodeUnknown(line: string, labels: map<string, int>)
    requires Words(line) != [] && Words(line)[0] !in IS.Mnemonics
    ensures EncodeInstruction(line, labels) == Failure(UnknownInstruction(Words(line)[0]))
  {
  }

  // ----- Pass one -----

  /** An instruction line recorded by pass one, with the address it will occupy. */
  datatype Pending = Pending(line: string, address: int)

  /** What pass one has built so far: the symbol table, the current address
      and the recorded instruction lines. */
  datatype Layout = Layout(labels: map<string, int>, address: int, pending: seq<Pending>)

  /** A fresh assembler: no symbols, address 0, nothing recorded. */
  const Start: Layout := Layout(map[], 0, [])

  /** The integer value of token i; a missing token is nil, which reads as 0. */
  function IntArg(tokens: seq<string>, i: nat): int {
    if i < |tokens| then ToI(tokens[i]) else 0
  }

  /** The effect of a directive line: `.org` sets the address, `.const` binds
      a name without moving it, `.data` moves it forward by a size, and any
      other directive is an error. No directive records an instruction. */
  function Directive(st: Layout, tokens: seq<string>): (r: Result<Layout, AsmError>)
    requires |tokens| > 0
    ensures r.Success? ==> r.value.pending == st.pending
    ensures r.Failure? <==> tokens[0] != ".org" && tokens[0] != ".const" && tokens[0] != ".data"
    ensures r.Failure? ==> r.error == UnknownDirective(tokens[0])
  {
    var directive := tokens[0];
    if directive == ".org" then
      Success(st.(address := IntArg(tokens, 1)))
    else if directive == ".const" then
      if |tokens| > 1 then Success(st.(labels := st.labels[tokens[1] := IntArg(tokens, 2)]))
      else Success(st)
    else if directive == ".data" then
      Success(st.(address := st.address + IntArg(tokens, 1)))
    else
      Failure(UnknownDirective(directive))
  }

  /** `.org n` moves the address to n and changes nothing else. */
  lemma {:induction false} OrgDirective(st: Layout, n: int)
    ensures Directive(st, [".org", Numeral(n)]) == Success(st.(address := n))
  {
    NumeralToI(n);
  }

  /** `.const name n` binds name to n and leaves the address where it was. */
  lemma {:induction false} ConstDirective(st: Layout, name: string, n: int)
    ensures Directive(st, [".const", name, Numeral(n)]) == Success(st.(labels := st.labels[name := n]))
  {
    NumeralToI(n);
  }

  /** `.data n` reserves n cells: the address moves on by n. */
  lemma {:induction false} DataDirective(st: Layout, n: int)
    ensures Directive(st, [".data", Numeral(n)]) == Success(st.(address := st.address + n))
  {
    NumeralToI(n);
  }

  /** The name a label line binds: the stripped line without its last
      character. */
  function LabelName(line: string): string
    requires line != []
  {
    Strip(line[..|line| - 1])
  }

  /** Pass one on one source line. Blank and comment lines change nothing; a
      label line binds its name to the current address; a line whose first
      token starts with a dot is a directive; any other line is recorded as an
      instruction at the current address, which then moves on by 4. */
  function LineStep(st: Layout, raw: string): (r: Result<Layout, AsmError>)
    ensures r.Success? ==> st.pending <= r.value.pending && |r.value.pending| <= |st.pending| + 1
    ensures r.Success? && |r.value.pending| == |st.pending| + 1 ==>
              r.value.pending[|st.pending|] == Pending(Strip(raw), st.address) &&
              r.value.address == st.address + 4 && r.value.labels == st.labels
  {
    var line := Strip(raw);
    if line == [] || line[0] == ';' then Success(st)
    else if StartsWithLabel(line) then
      Success(st.(labels := st.labels[LabelName(line) := st.address]))
    else
      var tokens := Words(line);
      if tokens[0][0] == '.' then Directive(st, tokens)
      else Success(st.(pending := st.pending + [Pending(line, st.address)], address := st.address + 4))
  }

  /** Pass one over the remaining lines, stopping at the first error. */
  function FirstPassFrom(st: Layout, lines: seq<string>): (r: Result<Layout, AsmError>)
    ensures r.Success? ==> st.pending <= r.value.pending
    decreases |lines|
  {
    if lines == [] then Success(st)
    else
      var next :- LineStep(st, lines[0]);
      FirstPassFrom(next, lines[1..])
  }

  /** Pass one of a fresh assembler over a whole source text. */
  function FirstPassSpec(code: string): Result<Layout, AsmError> {
    FirstPassFrom(Start, Lines(code))
  }

  /** Blank lines and comment lines leave pass one's state as it was. */
  lemma {:induction false} BlankOrCommentLine(st: Layout, raw: string)
    requires Strip(raw) == [] || Strip(raw)[0] == ';'
    ensures LineStep(st, raw) == Success(st)
  {
  }

  /** A label line binds its name to the current address; the address and the
      recorded instructions stay as they were. Text after the colon on the same
      line is not read as an instruction. */
  lemma {:induction false} LabelLineKeepsAddress(st: Layout, raw: string)
    requires StartsWithLabel(Strip(raw))
    ensures var line := Strip(raw);
            LineStep(st, raw) == Success(st.(labels := st.labels[LabelName(line) := st.address]))
  {
    var line := Strip(raw);
    assert line[0] != ';' by {
      assert WordCharPrefix(line) != [] && IsWordChar(WordCharPrefix(line)[0]);
    }
  }

  /** `name:` on a line of its own binds name to the current address. */
  lemma {:induction false} LabelLine(st: Layout, name: string)
    requires name != [] && forall i :: 0 <= i < |name| ==> IsWordChar(name[i])
    ensures LineStep(st, name + ":") == Success(st.(labels := st.labels[name := st.address]))
  {
    LabelNameOf(name);
    LabelLineKeepsAddress(st, name + ":");
  }

  /** `name:` is a label line, already stripped, whose label is name. */
  lemma {:induction false} LabelNameOf(name: string)
    requires name != [] && forall i :: 0 <= i < |name| ==> IsWordChar(name[i])
    ensures var line := name + ":"; Strip(line) == line && StartsWithLabel(line) && LabelName(line) == name
  {
    var line := name + ":";
    assert line == name + ":" + [];
    StartsWithLabelOf(name, []);
    assert IsWordChar(line[0]) && line[|line| - 1] == ':';
    StripUnchanged(line);
    assert line[..|line| - 1] == name;
    assert IsWordChar(name[|name| - 1]);
    StripUnchanged(name);
  }

  /** A line whose first token starts with a dot is handed to Directive with
      all its tokens. */
  lemma {:induction false} DirectiveLine(st: Layout, raw: string)
    requires Strip(raw) != [] && Strip(raw)[0] == '.'
    ensures LineStep(st, raw) == Directive(st, Words(Strip(raw)))
  {
    var line := Strip(raw);
    WordsHead(line);
    DotNotLabel(line);
    assert Words(line)[0][0] == '.';
  }

  /** A line starting with a dot is not a label line. */
  lemma {:induction false} DotNotLabel(line: string)
    requires line != [] && line[0] == '.'
    ensures !StartsWithLabel(line)
  {
    assert WordCharPrefix(line) == [];
  }

  /** Any other non-blank line is recorded as an instruction at the current
      address, and the address moves on by exactly 4. */
  lemma {:induction false} InstructionLine(st: Layout, raw: string)
    requires var line := Strip(raw);
             line != [] && line[0] != ';' && line[0] != '.' && !StartsWithLabel(line)
    ensures LineStep(st, raw) == Success(st.(pending := st.pending + [Pending(Strip(raw), st.address)],
                                             address := st.address + 4))
  {
    var line := Strip(raw);
    WordsHead(line);
    var tokens := Words(line);
    assert tokens[0][0] == line[0] != '.';
  }

  /** `.org n` as a source line. */
  lemma {:induction false} OrgLine(st: Layout, n: int)
    ensures LineStep(st, ".org " + Numeral(n)) == Success(st.(address := n))
  {
    var line := ".org " + Numeral(n);
    assert line == JoinWords([".org", Numeral(n)]);
    StripUnchanged(line);
    WordsJoin([".org", Numeral(n)]);
    DirectiveLine(st, line);
    OrgDirective(st, n);
  }

  /** `.const name n` as a source line. */
  lemma {:induction false} ConstLine(st: Layout, name: string, n: int)
    requires name != [] && NoSpace(name) && !IsStripChar(name[0])
    ensures LineStep(st, ".const " + name + " " + Numeral(n))
         == Success(st.(labels := st.labels[name := n]))
  {
    var line := ".const " + name + " " + Numeral(n);
    var ws := [".const", name, Numeral(n)];
    assert ws[1..] == [name, Numeral(n)];
    assert JoinWords(ws[1..]) == name + (" " + Numeral(n));
    assert JoinWords(ws) == ".const" + (" " + (name + (" " + Numeral(n))));
    assert line == JoinWords(ws);
    StripUnchanged(line);
    WordsJoin([".const", name, Numeral(n)]);
    DirectiveLine(st, line);
    ConstDirective(st, name, n);
  }

  /** `.data n` as a source line. */
  lemma {:induction false} DataLine(st: Layout, n: int)
    ensures LineStep(st, ".data " + Numeral(n)) == Success(st.(address := st.address + n))
  {
    var line := ".data " + Numeral(n);
    assert line == JoinWords([".data", Numeral(n)]);
    StripUnchanged(line);
    WordsJoin([".data", Numeral(n)]);
    DirectiveLine(st, line);
    DataDirective(st, n);
  }

  /** A directive other than the three is an error, and pass one stops there. */
  lemma {:induction false} UnknownDirectiveLine(st: Layout, raw: string, rest: seq<string>)
    requires Strip(raw) != [] && Strip(raw)[0] == '.'
    requires var d := Words(Strip(raw))[0]; d != ".org" && d != ".const" && d != ".data"
    ensures FirstPassFrom(st, [raw] + rest) == Failure(UnknownDirective(Words(Strip(raw))[0]))
  {
    WordsHead(Strip(raw));
    DirectiveLine(st, raw);
    assert ([raw] + rest)[0] == raw;
  }

  // ----- Pass two -----

  /** The 4096 zero cells a fresh assembler starts from. */
  function Zeros(): (z: seq<nat>)
    ensures |z| == IS.MemorySize && forall i :: 0 <= i < |z| ==> z[i] == 0
  {
    seq(IS.MemorySize, _ => 0)
  }

  /** Whether a four-cell word at the address lies inside the image. */
  predicate Fits(image: seq<nat>, address: int) {
    0 <= address && address + 4 <= |image|
  }

  /** Whether the word at the address covers cell i. */
  predicate Covers(address: int, i: int) {
    address <= i < address + 4
  }

  /** Whether the words at two addresses share no cell. */
  predicate Apart(a: int, b: int) {
    a + 4 <= b || b + 4 <= a
  }

  /** The image with the four cells from the address replaced by the word. */
  function WriteWord(image: seq<nat>, address: int, w: seq<nat>): (r: seq<nat>)
    requires Fits(image, address) && |w| == 4
    ensures |r| == |image|
    ensures forall i :: 0 <= i < |image| && !Covers(address, i) ==> r[i] == image[i]
    ensures forall j :: 0 <= j < 4 ==> r[address + j] == w[j]
  {
    image[address := w[0]][address + 1 := w[1]][address + 2 := w[2]][address + 3 := w[3]]
  }

  /** An encoded word and the address it goes to. */
  datatype Placed = Placed(address: int, word: seq<nat>)

  predicate FourCellWords(placed: seq<Placed>) {
    forall k :: 0 <= k < |placed| ==> |placed[k].word| == 4
  }

  /** Every recorded line encoded, in order, by the line encoder given; the
      first line that does not encode is the error. */
  function EncodeAll(pending: seq<Pending>, encode: string -> Result<seq<nat>, AsmError>)
    : (r: Result<seq<Placed>, AsmError>)
    ensures r.Success? ==> |r.value| == |pending|
    ensures r.Success? ==> forall k :: 0 <= k < |pending| ==>
              r.value[k].address == pending[k].address && encode(pending[k].line) == Success(r.value[k].word)
    decreases |pending|
  {
    if pending == [] then Success([])
    else
      var init :- EncodeAll(pending[..|pending| - 1], encode);
      var last := pending[|pending| - 1];
      var w :- encode(last.line);
      Success(init + [Placed(last.address, w)])
  }

  /** A failed pass two reports the error of one of its lines. */
  lemma {:induction false} EncodeAllFailure(pending: seq<Pending>, encode: string -> Result<seq<nat>, AsmError>)
    requires EncodeAll(pending, encode).Failure?
    ensures exists k :: 0 <= k < |pending| && encode(pending[k].line) == Failure(EncodeAll(pending, encode).error)
    decreases |pending|
  {
    var init := pending[..|pending| - 1];
    if EncodeAll(init, encode).Failure? {
      EncodeAllFailure(init, encode);
      var k :| 0 <= k < |init| && encode(init[k].line) == Failure(EncodeAll(init, encode).error);
      assert pending[k] == init[k];
    } else {
      assert encode(pending[|pending| - 1].line).Failure?;
    }
  }

  /** Whether every word lies inside the image. */
  predicate AllFit(image: seq<nat>, placed: seq<Placed>) {
    forall k :: 0 <= k < |placed| ==> Fits(image, placed[k].address)
  }

  /** The position of the first word that does not lie inside the image. */
  function FirstMisfit(image: seq<nat>, placed: seq<Placed>): (r: Option<nat>)
    ensures r.None? <==> AllFit(image, placed)
    ensures r.Some? ==> r.value < |placed| && !Fits(image, placed[r.value].address) &&
                        forall k :: 0 <= k < r.value ==> Fits(image, placed[k].address)
  {
    if placed == [] then None
    else if !Fits(image, placed[0].address) then Some(0)
    else match FirstMisfit(image, placed[1..])
      case None =>
        assert forall k :: 1 <= k < |placed| ==> placed[k] == placed[1..][k - 1];
        None
      case Some(k) =>
        assert forall k2 :: 1 <= k2 <= k ==> placed[k2] == placed[1..][k2 - 1];
        Some(k + 1)
  }

  /** The words written into the image one after the other. */
  function WriteAll(image: seq<nat>, placed: seq<Placed>): (r: seq<nat>)
    requires FourCellWords(placed) && AllFit(image, placed)
    ensures |r| == |image|
    decreases |placed|
  {
    if placed == [] then image
    else
      var last := placed[|placed| - 1];
      WriteWord(WriteAll(image, placed[..|placed| - 1]), last.address, last.word)
  }

  /** Pass two: every recorded line is encoded with the given symbol table and
      its word written at the line's address. Errors of encoding come first, in
      the order of the lines; then the first word that does not fit in the
      image. */
  function SecondPassSpec(image: seq<nat>, pending: seq<Pending>, labels: map<string, int>)
    : (r: Result<seq<nat>, AsmError>)
    ensures r.Success? ==> |r.value| == |image|
  {
    var placed :- EncodeAll(pending, LineEncoder(labels));
    EncodedWords(pending, labels, placed);
    match FirstMisfit(image, placed)
    case Some(k) => Failure(AddressOutOfRange(placed[k].address))
    case None => Success(WriteAll(image, placed))
  }

  /** The line encoder of pass two for a given symbol table. */
  function LineEncoder(labels: map<string, int>): string -> Result<seq<nat>, AsmError> {
    line => EncodeInstruction(line, labels)
  }

  /** Lines encoded by EncodeInstruction give four-byte words. */
  lemma {:induction false} EncodedWords(pending: seq<Pending>, labels: map<string, int>, placed: seq<Placed>)
    requires EncodeAll(pending, LineEncoder(labels)) == Success(placed)
    ensures FourCellWords(placed)
    ensures forall k, j :: 0 <= k < |placed| && 0 <= j < 4 ==> placed[k].word[j] < 256
  {
    forall k | 0 <= k < |placed|
      ensures |placed[k].word| == 4 && forall j :: 0 <= j < 4 ==> placed[k].word[j] < 256
    {
      assert EncodeInstruction(pending[k].line, labels) == Success(placed[k].word);
    }
  }

  /** Assembling a whole source text with a fresh assembler: pass one, then
      pass two with the symbol table pass one finished with. */
  function AssembleSpec(code: string): Result<seq<nat>, AsmError> {
    AssembleFrom(Start, Zeros(), code)
  }

  /** Both passes, continuing from a pass-one state and a machine-code image
      left by earlier use of the same assembler. */
  function AssembleFrom(st: Layout, image: seq<nat>, code: string): Result<seq<nat>, AsmError> {
    var layout :- FirstPassFrom(st, Lines(code));
    SecondPassSpec(image, layout.pending, layout.labels)
  }

  /** A cell that no word covers keeps its value. */
  lemma {:induction false} WriteAllUntouched(image: seq<nat>, placed: seq<Placed>, i: int)
    requires FourCellWords(placed) && AllFit(image, placed)
    requires 0 <= i < |image| && forall k :: 0 <= k < |placed| ==> !Covers(placed[k].address, i)
    ensures WriteAll(image, placed)[i] == image[i]
    decreases |placed|
  {
    if placed != [] {
      var init := placed[..|placed| - 1];
      forall k | 0 <= k < |init|
        ensures !Covers(init[k].address, i) && Fits(image, init[k].address) && |init[k].word| == 4
      {
        assert init[k] == placed[k];
      }
      WriteAllUntouched(image, init, i);
      assert !Covers(placed[|placed| - 1].address, i);
    }
  }

  /** Writing bytes into an image of bytes leaves an image of bytes. */
  lemma {:induction false} WriteAllBytes(image: seq<nat>, placed: seq<Placed>)
    requires FourCellWords(placed) && AllFit(image, placed)
    requires forall i :: 0 <= i < |image| ==> image[i] < 256
    requires forall k, j :: 0 <= k < |placed| && 0 <= j < 4 ==> placed[k].word[j] < 256
    ensures forall i :: 0 <= i < |image| ==> WriteAll(image, placed)[i] < 256
    decreases |placed|
  {
    if placed != [] {
      var init := placed[..|placed| - 1];
      forall k, j | 0 <= k < |init| && 0 <= j < 4
        ensures init[k].word[j] < 256 && Fits(image, init[k].address) && |init[k].word| == 4
      {
        assert init[k] == placed[k];
      }
      WriteAllBytes(image, init);
    }
  }

  /** Dropping the last word keeps the words four cells long and inside the
      image; the image is the shorter list's image with the last word written
      over it. */
  lemma {:induction false} DropLastWord(image: seq<nat>, placed: seq<Placed>)
    requires FourCellWords(placed) && AllFit(image, placed) && placed != []
    ensures var init, last := placed[..|placed| - 1], placed[|placed| - 1];
            FourCellWords(init) && AllFit(image, init) &&
            (forall k :: 0 <= k < |init| ==> init[k] == placed[k]) &&
            WriteAll(image, placed) == WriteWord(WriteAll(image, init), last.address, last.word)
  {
  }

  /** The two parts of a list of words that fit are lists of words that fit. */
  lemma {:induction false} SplitWords(image: seq<nat>, p: seq<Placed>, q: seq<Placed>)
    requires FourCellWords(p + q) && AllFit(image, p + q)
    ensures FourCellWords(p) && AllFit(image, p)
    ensures FourCellWords(q) && AllFit(image, q)
  {
    assert forall k :: 0 <= k < |p| ==> (p + q)[k] == p[k];
    assert forall k :: 0 <= k < |q| ==> (p + q)[|p| + k] == q[k];
  }

  /** Words fit an image exactly when they fit any image of its size. */
  lemma {:induction false} FitsSameSize(image: seq<nat>, other: seq<nat>, placed: seq<Placed>)
    requires |image| == |other| && AllFit(image, placed)
    ensures AllFit(other, placed)
  {
  }

  /** Writing a list of words is writing a prefix of it, then the rest over
      the result. */
  lemma {:induction false} WriteAllAppend(image: seq<nat>, p: seq<Placed>, q: seq<Placed>)
    requires FourCellWords(p + q) && AllFit(image, p + q)
    ensures FourCellWords(p) && AllFit(image, p)
    ensures FourCellWords(q) && AllFit(WriteAll(image, p), q)
    ensures WriteAll(image, p + q) == WriteAll(WriteAll(image, p), q)
    decreases |q|
  {
    SplitWords(image, p, q);
    FitsSameSize(image, WriteAll(image, p), q);
    if q == [] {
      assert p + q == p;
    } else {
      var pq, q0, last := p + q, q[..|q| - 1], q[|q| - 1];
      assert pq[..|pq| - 1] == p + q0;
      assert pq[|pq| - 1] == last;
      DropLastWord(image, pq);
      WriteAllAppend(image, p, q0);
      DropLastWord(WriteAll(image, p), q);
      assert WriteAll(image, pq) == WriteWord(WriteAll(WriteAll(image, p), q0), last.address, last.word);
    }
  }

  /** A word that no later word overlaps ends up in the image as written. */
  lemma {:induction false} WriteAllWord(image: seq<nat>, placed: seq<Placed>, k: nat)
    requires FourCellWords(placed) && AllFit(image, placed)
    requires k < |placed| && forall k2 :: k < k2 < |placed| ==> Apart(placed[k2].address, placed[k].address)
    ensures var a := placed[k].address; WriteAll(image, placed)[a..a + 4] == placed[k].word
  {
    var p, q, a, w := placed[..k + 1], placed[k + 1..], placed[k].address, placed[k].word;
    assert placed == p + q;
    WriteAllAppend(image, p, q);
    var w0, wp := WriteAll(image, placed[..k]), WriteAll(image, p);
    PrefixWrite(image, placed, k);
    WriteWordAt(w0, a, w);
    LaterApart(placed, k);
    UntouchedWord(wp, q, a);
    assert WriteAll(image, placed) == WriteAll(wp, q);
  }

  /** Writing the first k + 1 words is writing word k over the first k. */
  lemma {:induction false} PrefixWrite(image: seq<nat>, placed: seq<Placed>, k: nat)
    requires FourCellWords(placed) && AllFit(image, placed) && k < |placed|
    ensures FourCellWords(placed[..k]) && AllFit(image, placed[..k])
    ensures FourCellWords(placed[..k + 1]) && AllFit(image, placed[..k + 1])
    ensures WriteAll(image, placed[..k + 1])
         == WriteWord(WriteAll(image, placed[..k]), placed[k].address, placed[k].word)
  {
    var p := placed[..k + 1];
    assert forall i :: 0 <= i < |p| ==> p[i] == placed[i];
    DropLastWord(image, p);
    assert p[..k] == placed[..k] && p[k] == placed[k];
  }

  /** The words after word k, when apart from it, are each apart from it. */
  lemma {:induction false} LaterApart(placed: seq<Placed>, k: nat)
    requires k < |placed| && forall k2 :: k < k2 < |placed| ==> Apart(placed[k2].address, placed[k].address)
    ensures var q := placed[k + 1..]; forall k2 :: 0 <= k2 < |q| ==> Apart(q[k2].address, placed[k].address)
  {
    var q := placed[k + 1..];
    forall k2 | 0 <= k2 < |q|
      ensures Apart(q[k2].address, placed[k].address)
    {
      assert q[k2] == placed[k + 1 + k2];
    }
  }

  /** Words apart from the four cells at an address leave those cells alone. */
  lemma {:induction false} UntouchedWord(image: seq<nat>, placed: seq<Placed>, a: int)
    requires FourCellWords(placed) && AllFit(image, placed) && Fits(image, a)
    requires forall k :: 0 <= k < |placed| ==> Apart(placed[k].address, a)
    ensures WriteAll(image, placed)[a..a + 4] == image[a..a + 4]
  {
    var r := WriteAll(image, placed);
    forall i | a <= i < a + 4
      ensures r[i] == image[i]
    {
      assert forall k :: 0 <= k < |placed| ==> !Covers(placed[k].address, i);
      WriteAllUntouched(image, placed, i);
    }
    var t, u := r[a..a + 4], image[a..a + 4];
    assert forall j :: 0 <= j < 4 ==> t[j] == u[j];
  }

  /** The written word is found at its address. */
  lemma {:induction false} WriteWordAt(image: seq<nat>, a: int, w: seq<nat>)
    requires Fits(image, a) && |w| == 4
    ensures WriteWord(image, a, w)[a..a + 4] == w
  {
    var t := WriteWord(image, a, w)[a..a + 4];
    assert forall j :: 0 <= j < 4 ==> t[j] == w[j];
  }

  /** No entry after entry k writes over any of entry k's four cells. */
  predicate NotOverwritten(pending: seq<Pending>, k: nat)
    requires k < |pending|
  {
    forall k2 :: k < k2 < |pending| ==> Apart(pending[k2].address, pending[k].address)
  }

  /** A successful pass two is WriteAll of the encoded lines, all of which fit. */
  lemma {:induction false} SecondPassWrites(image: seq<nat>, pending: seq<Pending>, labels: map<string, int>)
    requires SecondPassSpec(image, pending, labels).Success?
    ensures EncodeAll(pending, LineEncoder(labels)).Success?
    ensures var placed := EncodeAll(pending, LineEncoder(labels)).value;
            FourCellWords(placed) && AllFit(image, placed) &&
            (forall k, j :: 0 <= k < |placed| && 0 <= j < 4 ==> placed[k].word[j] < 256) &&
            SecondPassSpec(image, pending, labels).value == WriteAll(image, placed)
  {
    var placed := EncodeAll(pending, LineEncoder(labels)).value;
    EncodedWords(pending, labels, placed);
  }

  /** A successful pass two keeps the image's size, and writes bytes into an
      image of bytes. */
  lemma {:induction false} SecondPassBytes(image: seq<nat>, pending: seq<Pending>, labels: map<string, int>)
    requires SecondPassSpec(image, pending, labels).Success?
    ensures var img := SecondPassSpec(image, pending, labels).value;
            |img| == |image| &&
            ((forall i :: 0 <= i < |image| ==> image[i] < 256) ==> forall i :: 0 <= i < |img| ==> img[i] < 256)
  {
    SecondPassWrites(image, pending, labels);
    if forall i :: 0 <= i < |image| ==> image[i] < 256 {
      WriteAllBytes(image, EncodeAll(pending, LineEncoder(labels)).value);
    }
  }

  /** After a successful pass two, every cell that no recorded line reaches is
      as it was. */
  lemma {:induction false} SecondPassUntouched(image: seq<nat>, pending: seq<Pending>, labels: map<string, int>)
    requires SecondPassSpec(image, pending, labels).Success?
    ensures var img := SecondPassSpec(image, pending, labels).value;
            forall i :: 0 <= i < |img| && (forall k :: 0 <= k < |pending| ==> !Covers(pending[k].address, i))
              ==> img[i] == image[i]
  {
    SecondPassWrites(image, pending, labels);
    var placed := EncodeAll(pending, LineEncoder(labels)).value;
    forall i | 0 <= i < |image| && (forall k :: 0 <= k < |pending| ==> !Covers(pending[k].address, i))
      ensures WriteAll(image, placed)[i] == image[i]
    {
      assert forall k :: 0 <= k < |placed| ==> placed[k].address == pending[k].address;
      WriteAllUntouched(image, placed, i);
    }
  }

  /** After a successful pass two, every recorded line that no later one
      writes over holds its own encoded word. */
  lemma {:induction false} SecondPassWords(image: seq<nat>, pending: seq<Pending>, labels: map<string, int>)
    requires SecondPassSpec(image, pending, labels).Success?
    ensures var img := SecondPassSpec(image, pending, labels).value;
            forall k :: 0 <= k < |pending| && NotOverwritten(pending, k) ==>
              var p := pending[k];
              Fits(img, p.address) && EncodeInstruction(p.line, labels).Success? &&
              img[p.address..p.address + 4] == EncodeInstruction(p.line, labels).value
  {
    SecondPassWrites(image, pending, labels);
    var placed := EncodeAll(pending, LineEncoder(labels)).value;
    forall k | 0 <= k < |pending| && NotOverwritten(pending, k)
      ensures var p, img := pending[k], WriteAll(image, placed);
              Fits(img, p.address) && EncodeInstruction(p.line, labels).Success? &&
              img[p.address..p.address + 4] == EncodeInstruction(p.line, labels).value
    {
      EncodedEntry(pending, labels, placed, k);
      PlacedNotOverwritten(pending, labels, placed, k);
      WriteAllWord(image, placed, k);
    }
  }

  /** Entry k of a successful encoding is line k's word, at line k's address. */
  lemma {:induction false} EncodedEntry(pending: seq<Pending>, labels: map<string, int>,
                                        placed: seq<Placed>, k: nat)
    requires EncodeAll(pending, LineEncoder(labels)) == Success(placed)
    requires k < |pending|
    ensures k < |placed| && placed[k].address == pending[k].address
    ensures EncodeInstruction(pending[k].line, labels) == Success(placed[k].word)
  {
    assert LineEncoder(labels)(pending[k].line) == Success(placed[k].word);
  }

  /** Entry k of pass two is not written over by a later entry. */
  lemma {:induction false} PlacedNotOverwritten(pending: seq<Pending>, labels: map<string, int>,
                                                placed: seq<Placed>, k: nat)
    requires EncodeAll(pending, LineEncoder(labels)) == Success(placed)
    requires k < |pending| && NotOverwritten(pending, k)
    ensures k < |placed| && forall k2 :: k < k2 < |placed| ==> Apart(placed[k2].address, placed[k].address)
  {
    forall k2 | k < k2 < |placed|
      ensures Apart(placed[k2].address, placed[k].address)
    {
      assert placed[k2].address == pending[k2].address && placed[k].address == pending[k].address;
    }
  }

  /** What a successful assembly holds: 4096 bytes; zero wherever no recorded
      instruction reaches; and, for every instruction no later one writes
      over, its own word encoded with the symbol table as it stands at the end
      of pass one. So a name used before its label is defined resolves exactly
      as one used after it. */
  lemma {:induction false} AssembleImage(code: string)
    requires AssembleSpec(code).Success?
    ensures FirstPassSpec(code).Success?
    ensures var layout, img := FirstPassSpec(code).value, AssembleSpec(code).value;
            |img| == IS.MemorySize &&
            (forall i :: 0 <= i < |img| ==> img[i] < 256) &&
            (forall i :: 0 <= i < |img| && (forall k :: 0 <= k < |layout.pending| ==> !Covers(layout.pending[k].address, i))
               ==> img[i] == 0) &&
            (forall k :: 0 <= k < |layout.pending| && NotOverwritten(layout.pending, k) ==>
               var p := layout.pending[k];
               Fits(img, p.address) && EncodeInstruction(p.line, layout.labels).Success? &&
               img[p.address..p.address + 4] == EncodeInstruction(p.line, layout.labels).value)
  {
    var layout := FirstPassSpec(code).value;
    assert AssembleSpec(code) == SecondPassSpec(Zeros(), layout.pending, layout.labels);
    ZeroImagePass(layout.pending, layout.labels);
  }

  /** Pass two over the zero image: bytes, zero where no word reaches, and
      every word no later one writes over in place. */
  lemma {:induction false} ZeroImagePass(pending: seq<Pending>, labels: map<string, int>)
    requires SecondPassSpec(Zeros(), pending, labels).Success?
    ensures var img := SecondPassSpec(Zeros(), pending, labels).value;
            |img| == IS.MemorySize &&
            (forall i :: 0 <= i < |img| ==> img[i] < 256) &&
            (forall i :: 0 <= i < |img| && (forall k :: 0 <= k < |pending| ==> !Covers(pending[k].address, i))
               ==> img[i] == 0) &&
            (forall k :: 0 <= k < |pending| && NotOverwritten(pending, k) ==>
               var p := pending[k];
               Fits(img, p.address) && EncodeInstruction(p.line, labels).Success? &&
               img[p.address..p.address + 4] == EncodeInstruction(p.line, labels).value)
  {
    var zero := Zeros();
    SecondPassBytes(zero, pending, labels);
    SecondPassUntouched(zero, pending, labels);
    SecondPassWords(zero, pending, labels);
  }

  // ----- The assembler object -----

  /** Pass two's bookkeeping: a line encoded after a prefix that encoded
      extends the prefix's words by its own. */
  lemma {:induction false} EncodeAllExtend(pending: seq<Pending>, encode: string -> Result<seq<nat>, AsmError>,
                                           i: nat, placed: seq<Placed>, w: seq<nat>)
    requires i < |pending| && EncodeAll(pending[..i], encode) == Success(placed)
    requires encode(pending[i].line) == Success(w)
    ensures EncodeAll(pending[..i + 1], encode) == Success(placed + [Placed(pending[i].address, w)])
  {
    assert pending[..i + 1][..i] == pending[..i];
  }

  /** Once line i fails to encode after a prefix that encoded, every longer
      prefix fails with the same error. */
  lemma {:induction false} EncodeAllStops(pending: seq<Pending>, encode: string -> Result<seq<nat>, AsmError>,
                                          i: nat, j: nat, e: AsmError)
    requires i < j <= |pending| && EncodeAll(pending[..i], encode).Success?
    requires encode(pending[i].line) == Failure(e)
    ensures EncodeAll(pending[..j], encode) == Failure(e)
    decreases j
  {
    if j == i + 1 {
      assert pending[..j][..i] == pending[..i];
    } else {
      EncodeAllStops(pending, encode, i, j - 1, e);
      assert pending[..j][..j - 1] == pending[..j - 1];
    }
  }

  /** When line i is the first that does not encode, pass two reports its
      error. */
  lemma {:induction false} EncodeFailureOutcome(image: seq<nat>, pending: seq<Pending>, labels: map<string, int>,
                                               i: nat, e: AsmError)
    requires i < |pending| && EncodeAll(pending[..i], LineEncoder(labels)).Success?
    requires EncodeInstruction(pending[i].line, labels) == Failure(e)
    ensures SecondPassSpec(image, pending, labels) == Failure(e)
  {
    assert LineEncoder(labels)(pending[i].line) == Failure(e);
    EncodeAllStops(pending, LineEncoder(labels), i, |pending|, e);
    assert pending[..|pending|] == pending;
  }

  /** Pass two's progress after the words of a prefix of the lines: with no
      misfit yet, the cells are those words written over the image; after
      one, the error reported is the first misfit's. */
  ghost predicate Written(image: seq<nat>, placed: seq<Placed>, misfit: Option<AsmError>, cells: seq<nat>) {
    FourCellWords(placed) && |cells| == |image| &&
    match misfit
    case None => FirstMisfit(image, placed).None? && cells == WriteAll(image, placed)
    case Some(e) => FirstMisfit(image, placed).Some? && e == AddressOutOfRange(placed[FirstMisfit(image, placed).value].address)
  }

  /** A word that fits, after words that all fit, is written over the cells. */
  lemma {:induction false} WrittenFit(image: seq<nat>, placed: seq<Placed>, cells: seq<nat>, x: Placed)
    requires Written(image, placed, None, cells) && |x.word| == 4 && Fits(image, x.address)
    ensures Written(image, placed + [x], None, WriteWord(cells, x.address, x.word))
  {
    var longer := placed + [x];
    assert forall k :: 0 <= k < |placed| ==> longer[k] == placed[k];
    assert longer[..|placed|] == placed;
  }

  /** The first word that does not fit is the one reported. */
  lemma {:induction false} WrittenMisfit(image: seq<nat>, placed: seq<Placed>, cells: seq<nat>, x: Placed)
    requires Written(image, placed, None, cells) && |x.word| == 4 && !Fits(image, x.address)
    ensures Written(image, placed + [x], Some(AddressOutOfRange(x.address)), cells)
  {
    var longer := placed + [x];
    assert forall k :: 0 <= k < |placed| ==> longer[k] == placed[k];
    assert longer[|placed|] == x;
  }

  /** After a misfit, later words change neither the cells nor the report. */
  lemma {:induction false} WrittenAfterMisfit(image: seq<nat>, placed: seq<Placed>, e: AsmError,
                                             cells: seq<nat>, x: Placed)
    requires Written(image, placed, Some(e), cells) && |x.word| == 4
    ensures Written(image, placed + [x], Some(e), cells)
  {
    var longer := placed + [x];
    assert forall k :: 0 <= k < |placed| ==> longer[k] == placed[k];
  }

  /** One line of pass two: a word that fits, while none has misfit, is
      written; the first that does not fit is reported; after a misfit
      nothing changes. */
  lemma {:induction false} WrittenStep(image: seq<nat>, placed: seq<Placed>, misfit: Option<AsmError>,
                                      cells: seq<nat>, x: Placed)
    requires Written(image, placed, misfit, cells) && |x.word| == 4
    ensures misfit.None? && Fits(image, x.address) ==>
              Written(image, placed + [x], None, WriteWord(cells, x.address, x.word))
    ensures misfit.None? && !Fits(image, x.address) ==>
              Written(image, placed + [x], Some(AddressOutOfRange(x.address)), cells)
    ensures misfit.Some? ==> Written(image, placed + [x], misfit, cells)
  {
    if misfit.Some? {
      WrittenAfterMisfit(image, placed, misfit.value, cells, x);
    } else if Fits(image, x.address) {
      WrittenFit(image, placed, cells, x);
    } else {
      WrittenMisfit(image, placed, cells, x);
    }
  }

  /** Once every line has encoded, the progress is pass two's outcome. */
  lemma {:induction false} WrittenOutcome(image: seq<nat>, pending: seq<Pending>, labels: map<string, int>,
                                         placed: seq<Placed>, misfit: Option<AsmError>, cells: seq<nat>)
    requires EncodeAll(pending, LineEncoder(labels)) == Success(placed)
    requires Written(image, placed, misfit, cells)
    ensures match SecondPassSpec(image, pending, labels)
            case Success(img) => misfit == None && cells == img
            case Failure(e) => misfit == Some(e)
  {
  }

  /** The assembler: its symbol table, the 4096-cell machine code it fills,
      the address pass one has reached and the instruction lines pass one
      has recorded for pass two. */
  class Assembler {
    var labels: map<string, int>
    const machineCode: array<nat>
    var currentAddress: int
    var passTwoCode: seq<Pending>

    /** Pass one's state as a value. */
    function Progress(): Layout
      reads this
    {
      Layout(labels, currentAddress, passTwoCode)
    }

    /** Whether a step reported err and left the state r describes. */
    predicate Reached(err: Option<AsmError>, r: Result<Layout, AsmError>)
      reads this
    {
      match r
      case Success(st) => err == None && Progress() == st
      case Failure(e) => err == Some(e)
    }

    /** A fresh assembler: no symbols, address 0, nothing recorded, and 4096
        zero cells. */
    constructor ()
      ensures Progress() == Start && fresh(machineCode) && machineCode[..] == Zeros()
    {
      labels := map[];
      machineCode := new nat[IS.MemorySize](_ => 0);
      currentAddress := 0;
      passTwoCode := [];
    }

    /** A directive line's effect on the symbol table and the address; an
        unknown directive is reported and changes nothing. */
    method ProcessDirective(tokens: seq<string>) returns (err: Option<AsmError>)
      requires |tokens| > 0
      modifies this
      ensures Reached(err, Directive(old(Progress()), tokens))
      ensures err.Some? ==> Progress() == old(Progress())
    {
      var directive := tokens[0];
      if directive == ".org" {
        currentAddress := IntArg(tokens, 1);
      } else if directive == ".const" {
        if |tokens| > 1 {
          labels := labels[tokens[1] := IntArg(tokens, 2)];
        }
      } else if directive == ".data" {
        currentAddress := currentAddress + IntArg(tokens, 1);
      } else {
        return Some(UnknownDirective(directive));
      }
      return None;
    }

    /** Pass one on one source line. */
    method ProcessLine(raw: string) returns (err: Option<AsmError>)
      modifies this
      ensures Reached(err, LineStep(old(Progress()), raw))
      ensures err.Some? ==> Progress() == old(Progress())
    {
      var line := Strip(raw);
      if line == [] || line[0] == ';' {
        BlankOrCommentLine(Progress(), raw);
        return None;
      }
      if StartsWithLabel(line) {
        ProcessLabel(raw, line);
        return None;
      }
      err := ProcessTokens(raw, line);
    }

    /** A label line: its label is bound to the current address. */
    method ProcessLabel(raw: string, line: string)
      requires line == Strip(raw) && StartsWithLabel(line)
      modifies this
      ensures Reached(None, LineStep(old(Progress()), raw))
    {
      ghost var st := Progress();
      LabelLineKeepsAddress(st, raw);
      labels := labels[LabelName(line) := currentAddress];
      assert Progress() == st.(labels := st.labels[LabelName(line) := st.address]);
    }

    /** A directive or instruction line. */
    method ProcessTokens(raw: string, line: string) returns (err: Option<AsmError>)
      requires line == Strip(raw) && line != [] && line[0] != ';' && !StartsWithLabel(line)
      modifies this
      ensures Reached(err, LineStep(old(Progress()), raw))
      ensures err.Some? ==> Progress() == old(Progress())
    {
      ghost var st := Progress();
      var tokens := Words(line);
      WordsHead(line);
      if tokens[0][0] == '.' {
        DirectiveLine(st, raw);
        err := ProcessDirective(tokens);
      } else {
        InstructionLine(st, raw);
        ProcessInstruction(line);
        err := None;
      }
    }

    /** An instruction line: recorded at the current address, which moves on
        by four. */
    method ProcessInstruction(line: string)
      modifies this
      ensures Progress() == old(Progress()).(pending := old(passTwoCode) + [Pending(line, old(currentAddress))],
                                             address := old(currentAddress) + 4)
    {
      passTwoCode, currentAddress := passTwoCode + [Pending(line, currentAddress)], currentAddress + 4;
    }

    /** Pass one over every line of the source, stopping at the first error. */
    method FirstPass(code: string) returns (err: Option<AsmError>)
      modifies this
      ensures Reached(err, FirstPassFrom(old(Progress()), Lines(code)))
    {
      var lines := Lines(code);
      var i := 0;
      while i < |lines|
        invariant 0 <= i <= |lines|
        invariant FirstPassFrom(Progress(), lines[i..]) == FirstPassFrom(old(Progress()), lines)
      {
        ghost var before := Progress();
        assert lines[i..][0] == lines[i] && lines[i..][1..] == lines[i + 1..];
        err := ProcessLine(lines[i]);
        if err.Some? {
          return;
        }
        i := i + 1;
      }
      return None;
    }

    /** Pass two: every recorded line is encoded with the symbol table and its
        word written at the line's address. The first line that does not
        encode is reported at once; a word that does not fit is not written,
        and the first such is reported at the end, when no line failed to
        encode. */
    method SecondPass() returns (err: Option<AsmError>)
      modifies machineCode
      ensures match SecondPassSpec(old(machineCode[..]), passTwoCode, labels)
              case Success(img) => err == None && machineCode[..] == img
              case Failure(e) => err == Some(e)
    {
      ghost var image := machineCode[..];
      ghost var placed: seq<Placed> := [];
      var misfit: Option<AsmError> := None;
      var i := 0;
      while i < |passTwoCode|
        invariant 0 <= i <= |passTwoCode|
        invariant EncodeAll(passTwoCode[..i], LineEncoder(labels)) == Success(placed)
        invariant Written(image, placed, misfit, machineCode[..])
      {
        var entry := passTwoCode[i];
        var encoded := EncodeInstruction(entry.line, labels);
        assert LineEncoder(labels)(entry.line) == encoded;
        if encoded.Failure? {
          EncodeFailureOutcome(image, passTwoCode, labels, i, encoded.error);
          return Some(encoded.error);
        }
        var word := encoded.value;
        var next := Placed(entry.address, word);
        EncodeAllExtend(passTwoCode, LineEncoder(labels), i, placed, word);
        misfit := PlaceWord(image, placed, misfit, next);
        placed := placed + [next];
        i := i + 1;
      }
      assert passTwoCode[..i] == passTwoCode;
      WrittenOutcome(image, passTwoCode, labels, placed, misfit, machineCode[..]);
      return misfit;
    }

    /** One encoded word of pass two: written while no word has misfit and
        this one fits; the first that does not fit is recorded as the error
        and not written; after a misfit nothing is written. */
    method PlaceWord(ghost image: seq<nat>, ghost placed: seq<Placed>, misfit: Option<AsmError>, x: Placed)
      returns (misfit': Option<AsmError>)
      requires Written(image, placed, misfit, machineCode[..]) && |x.word| == 4
      modifies machineCode
      ensures Written(image, placed + [x], misfit', machineCode[..])
    {
      WrittenStep(image, placed, misfit, machineCode[..], x);
      misfit' := misfit;
      if misfit.None? {
        if 0 <= x.address && x.address + 4 <= machineCode.Length {
          WriteCells(x.address, x.word);
        } else {
          misfit' := Some(AddressOutOfRange(x.address));
        }
      }
    }

    /** The four cells of one instruction word, written one by one. */
    method WriteCells(address: int, word: seq<nat>)
      requires 0 <= address && address + 4 <= machineCode.Length && |word| == 4
      modifies machineCode
      ensures machineCode[..] == WriteWord(old(machineCode[..]), address, word)
    {
      machineCode[address] := word[0];
      machineCode[address + 1] := word[1];
      machineCode[address + 2] := word[2];
      machineCode[address + 3] := word[3];
    }

    /** Both passes over a source text, continuing from the assembler's
        current state; the result is the machine code. */
    method Assemble(code: string) returns (r: Result<seq<nat>, AsmError>)
      modifies this, machineCode
      ensures r == AssembleFrom(old(Progress()), old(machineCode[..]), code)
    {
      var err := FirstPass(code);
      if err.Some? {
        return Failure(err.value);
      }
      err := SecondPass();
      if err.Some? {
        return Failure(err.value);
      }
      return Success(machineCode[..]);
    }
  }
}
