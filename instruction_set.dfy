/** The instruction codec shared by the assembler and the virtual machine:
    the opcode table and the packing of (opcode:4, regX:2, regY:2) into the
    first byte of every instruction word. */
module InstructionSet {
  import opened Bits
  import opened Wrappers

  const MemorySize: nat := 4096
  const DisplayStart: nat := 128
  const ProgramStart: nat := 2048
  const RegisterMask: nat := 0xFFFF

  /** The sixteen mnemonics; each one's opcode is its position in this list. */
  const Mnemonics: seq<string> :=
    ["MOV", "ADD", "SUB", "MUL", "DIV", "LOAD", "STORE", "JMP",
     "JEQ", "JNE", "CALL", "RET", "PUSH", "POP", "INT", "EXTENDED"]

  const MOV: nat := 0
  const ADD: nat := 1
  const SUB: nat := 2
  const MUL: nat := 3
  const DIV: nat := 4
  const LOAD: nat := 5
  const STORE: nat := 6
  const JMP: nat := 7
  const JEQ: nat := 8
  const JNE: nat := 9
  const CALL: nat := 10
  const RET: nat := 11
  const PUSH: nat := 12
  const POP: nat := 13
  const INT: nat := 14
  const EXTENDED: nat := 15

  /** The mnemonic-to-opcode table (a name outside the table has none). */
  function OpcodeNumber(name: string): (r: Option<nat>)
    ensures r.Some? ==> r.value < 16 && Mnemonics[r.value] == name
    ensures r.None? <==> name !in Mnemonics
  {
    if name == "MOV" then Some(MOV) else if name == "ADD" then Some(ADD)
    else if name == "SUB" then Some(SUB) else if name == "MUL" then Some(MUL)
    else if name == "DIV" then Some(DIV) else if name == "LOAD" then Some(LOAD)
    else if name == "STORE" then Some(STORE) else if name == "JMP" then Some(JMP)
    else if name == "JEQ" then Some(JEQ) else if name == "JNE" then Some(JNE)
    else if name == "CALL" then Some(CALL) else if name == "RET" then Some(RET)
    else if name == "PUSH" then Some(PUSH) else if name == "POP" then Some(POP)
    else if name == "INT" then Some(INT) else if name == "EXTENDED" then Some(EXTENDED)
    else None
  }

  /** The opcodes are numbered 0 .. 15 consecutively in the listed order: the
      table maps every listed name to its own position, and no other. */
  lemma {:induction false} OpcodeNumbering()
    ensures |Mnemonics| == 16
    ensures forall i :: 0 <= i < |Mnemonics| ==> OpcodeNumber(Mnemonics[i]) == Some(i)
    ensures forall name :: OpcodeNumber(name).Some? <==> name in Mnemonics
  {
  }

  /** The opcode masked to its low four bits. */
  function MaskOpcode(opcode: nat): (r: nat)
    ensures r < 16 && r == opcode % 16
    ensures opcode < 16 ==> r == opcode
  {
    AndLowMask(opcode, 4);
    Pow2Values();
    SmallMod(opcode, 16);
    And(opcode, 0x0F)
  }

  /** A register number masked to its low two bits. */
  function MaskRegister(reg: nat): (r: nat)
    ensures r < 4 && r == reg % 4
    ensures reg < 4 ==> r == reg
  {
    AndLowMask(reg, 2);
    Pow2Values();
    SmallMod(reg, 4);
    And(reg, 0x03)
  }

  /** The masked opcode shifted left by four, into the high nibble, leaving the
      low four bits clear; shifting back right recovers it. */
  function ShiftOpcode(maskedOpcode: nat): (r: nat)
    ensures r % 16 == 0 && r / 16 == maskedOpcode
    ensures maskedOpcode < 16 ==> r < 256
  {
    maskedOpcode * 16
  }

  /** The masked regX shifted left by two, into bits 2..3, leaving bits 0..1 clear. */
  function ShiftRegX(maskedReg: nat): (r: nat)
    ensures r % 4 == 0 && r / 4 == maskedReg
    ensures maskedReg < 4 ==> r < 16
  {
    maskedReg * 4
  }

  /** The opcode byte: the shifted opcode, the shifted regX and the masked
      regY ORed together. The three fields occupy disjoint bits, so the byte
      is their sum, and excess input bits are discarded. */
  function CombineOpcodeByte(opcode: nat, regX: nat, regY: nat): (b: nat)
    ensures b < 256
    ensures b == (opcode % 16) * 16 + (regX % 4) * 4 + regY % 4
  {
    var o, x, y := MaskOpcode(opcode), MaskRegister(regX), MaskRegister(regY);
    PackFields(o, x, y);
    Or(Or(ShiftOpcode(o), ShiftRegX(x)), y)
  }

  /** ORing the shifted fields is adding them: their bits do not overlap. */
  lemma {:induction false} PackFields(o: nat, x: nat, y: nat)
    requires x < 4 && y < 4
    ensures Or(Or(o * 16, x * 4), y) == o * 16 + x * 4 + y
  {
    Pow2Values();
    var ox := o * 4 + x;
    assert Or(o * 16, x * 4) == ox * 4 by {
      assert o * 16 == (o * 4) * 4;
      OrShift(o * 4, x, 2);
      OrDisjoint(o, x, 2);
    }
    OrDisjoint(ox, y, 2);
  }

  /** The three fields of an opcode byte. */
  datatype Fields = Fields(opcode: nat, regX: nat, regY: nat)

  /** The three fields of an opcode byte, each masked out and shifted down: bits 4..7, 2..3
      and 0..1 of the byte; higher bits of a wider cell are ignored. */
  function SplitOpcodeByte(byte: nat): (f: Fields)
    ensures f.opcode < 16 && f.regX < 4 && f.regY < 4
    ensures f.opcode == (byte / 16) % 16 && f.regX == (byte / 4) % 4 && f.regY == byte % 4
  {
    Pow2Values();
    AndShiftedMask(byte, 4, 4);
    AndShiftedMask(byte, 2, 2);
    AndLowMask(byte, 2);
    Fields(And(byte, 0xF0) / 16, And(byte, 0x0C) / 4, And(byte, 0x03))
  }

  /** Reading the three fields back out of o * 16 + x * 4 + y. */
  lemma {:induction false} FieldsOfSum(b: nat, o: nat, x: nat, y: nat)
    requires o < 16 && x < 4 && y < 4 && b == o * 16 + x * 4 + y
    ensures (b / 16) % 16 == o && (b / 4) % 4 == x && b % 4 == y
  {
    DivModUnique(b, 16, o, 4 * x + y);
    DivModUnique(o, 16, 0, o);
    DivModUnique(b, 4, 4 * o + x, y);
    DivModUnique(4 * o + x, 4, o, x);
  }

  /** Splitting a combined byte gives back the masked fields; for in-range
      fields that is the identity. */
  lemma {:induction false} SplitCombine(opcode: nat, regX: nat, regY: nat)
    ensures SplitOpcodeByte(CombineOpcodeByte(opcode, regX, regY))
         == Fields(opcode % 16, regX % 4, regY % 4)
    ensures opcode < 16 && regX < 4 && regY < 4 ==>
              SplitOpcodeByte(CombineOpcodeByte(opcode, regX, regY)) == Fields(opcode, regX, regY)
  {
    var b := CombineOpcodeByte(opcode, regX, regY);
    FieldsOfSum(b, opcode % 16, regX % 4, regY % 4);
    SmallMod(opcode, 16);
    SmallMod(regX, 4);
    SmallMod(regY, 4);
  }

  /** A number below m is its own remainder. */
  lemma {:induction false} SmallMod(a: nat, m: nat)
    requires m > 0
    ensures a < m ==> a % m == a
  {
    if a < m {
      DivModUnique(a, m, 0, a);
    }
  }

  /** A byte is the sum of its three fields, each shifted into place. */
  lemma {:induction false} ByteFields(byte: nat)
    requires byte < 256
    ensures byte == (byte / 16) % 16 * 16 + (byte / 4) % 4 * 4 + byte % 4
  {
    var q := byte / 4;
    assert byte == 4 * q + byte % 4;
    assert q == 4 * (q / 4) + q % 4;
    DivModUnique(byte, 16, q / 4, 4 * (q % 4) + byte % 4);
  }

  /** Combining the fields of a byte gives back the byte. */
  lemma {:induction false} CombineSplit(byte: nat)
    requires byte < 256
    ensures var f := SplitOpcodeByte(byte); CombineOpcodeByte(f.opcode, f.regX, f.regY) == byte
  {
    var f := SplitOpcodeByte(byte);
    SmallMod(f.opcode, 16);
    SmallMod(f.regX, 4);
    SmallMod(f.regY, 4);
    ByteFields(byte);
  }
}
