/** The assembler and the machine together: an assembled image, loaded at the
    program start of a new machine, decodes at each instruction's address to
    exactly what the instruction's line said. */
module Integration {
  import opened Wrappers
  import opened Text
  import IS = InstructionSet
  import Assembly
  import VM

  /** Where the image's cells land when loaded at the program start of a new
      machine: cell a of the image at address 2048 + a, in a memory of
      6144 cells. */
  lemma {:induction false} LoadedImage(image: seq<nat>, memory: seq<nat>)
    requires |image| == IS.MemorySize
    requires VM.LoadCells(VM.Fresh.memory, image, IS.ProgramStart) == Some(memory)
    ensures |memory| == IS.ProgramStart + IS.MemorySize
    ensures forall a :: 0 <= a < |image| ==> memory[IS.ProgramStart + a] == image[a]
    ensures forall a :: 0 <= a < IS.ProgramStart ==> memory[a] == 0
  {
    VM.FreshValid();
    VM.LoadContents(VM.Fresh.memory, image, IS.ProgramStart);
  }

  /** An instruction that no later one writes over, fetched by a machine that
      loaded the assembled image at the program start and whose program
      counter is at the instruction: the opcode is the mnemonic's, the
      register fields are the operands', and the immediate is the operand
      value modulo 2^16. */
  lemma {:induction false} LoadedInstructionDecodes(code: string, m: VM.MachineState, k: nat)
    requires Assembly.AssembleSpec(code).Success? && Assembly.FirstPassSpec(code).Success?
    requires var layout := Assembly.FirstPassSpec(code).value;
             k < |layout.pending| && Assembly.NotOverwritten(layout.pending, k) &&
             m.pc == IS.ProgramStart + layout.pending[k].address
    requires VM.LoadCells(VM.Fresh.memory, Assembly.AssembleSpec(code).value, IS.ProgramStart) == Some(m.memory)
    ensures var layout := Assembly.FirstPassSpec(code).value;
            var tokens := Words(layout.pending[k].line);
            |tokens| > 0 && IS.OpcodeNumber(tokens[0]).Some? &&
            Assembly.ParseOperands(tokens[1..], layout.labels).Success? &&
            var ops := Assembly.ParseOperands(tokens[1..], layout.labels).value;
            VM.Fetch(m) == Success(VM.Decoded(IS.OpcodeNumber(tokens[0]).value, ops.regX, ops.regY,
                                              ops.value % 0x1_0000))
  {
    var layout := Assembly.FirstPassSpec(code).value;
    var w := ImageHoldsWord(code, k);
    LoadedLineDecodes(layout.pending[k].line, layout.labels, Assembly.AssembleSpec(code).value,
                      m, layout.pending[k].address, w);
  }

  /** A line's encoded word, at some address of an image loaded at the program
      start, decodes to what the line said when the program counter is there. */
  lemma {:induction false} LoadedLineDecodes(line: string, labels: map<string, int>, image: seq<nat>,
                                             m: VM.MachineState, address: int, w: seq<nat>)
    requires |image| == IS.MemorySize && Assembly.Fits(image, address) && image[address..address + 4] == w
    requires Assembly.EncodeInstruction(line, labels) == Success(w)
    requires VM.LoadCells(VM.Fresh.memory, image, IS.ProgramStart) == Some(m.memory)
    requires m.pc == IS.ProgramStart + address
    ensures var tokens := Words(line);
            |tokens| > 0 && IS.OpcodeNumber(tokens[0]).Some? &&
            Assembly.ParseOperands(tokens[1..], labels).Success? &&
            var ops := Assembly.ParseOperands(tokens[1..], labels).value;
            VM.Fetch(m) == Success(VM.Decoded(IS.OpcodeNumber(tokens[0]).value, ops.regX, ops.regY,
                                              ops.value % 0x1_0000))
  {
    Assembly.EncodeDecode(line, labels);
    var tokens := Words(line);
    var ops := Assembly.ParseOperands(tokens[1..], labels).value;
    LoadedFetch(image, m, address, w, IS.OpcodeNumber(tokens[0]).value, ops.regX, ops.regY, ops.value % 0x1_0000);
  }

  /** Fetching at an address of an image loaded at the program start yields
      the fields of the word the image holds there. */
  lemma {:induction false} LoadedFetch(image: seq<nat>, m: VM.MachineState, address: int, w: seq<nat>,
                                       opcode: nat, regX: nat, regY: nat, immediate: nat)
    requires |image| == IS.MemorySize && Assembly.Fits(image, address) && image[address..address + 4] == w
    requires VM.LoadCells(VM.Fresh.memory, image, IS.ProgramStart) == Some(m.memory)
    requires m.pc == IS.ProgramStart + address
    requires w[3] < 256 && IS.SplitOpcodeByte(w[0]) == IS.Fields(opcode, regX, regY) && w[2] * 256 + w[3] == immediate
    ensures VM.Fetch(m) == Success(VM.Decoded(opcode, regX, regY, immediate))
  {
    LoadedWord(image, m.memory, address, w);
    FetchWord(m, w, opcode, regX, regY, immediate);
  }

  /** The assembled image holds an instruction that no later one writes over
      as its encoded word. */
  lemma {:induction false} ImageHoldsWord(code: string, k: nat) returns (w: seq<nat>)
    requires Assembly.AssembleSpec(code).Success? && Assembly.FirstPassSpec(code).Success?
    requires var layout := Assembly.FirstPassSpec(code).value;
             k < |layout.pending| && Assembly.NotOverwritten(layout.pending, k)
    ensures var layout, image := Assembly.FirstPassSpec(code).value, Assembly.AssembleSpec(code).value;
            var p := layout.pending[k];
            Assembly.Fits(image, p.address) && |image| == IS.MemorySize &&
            Assembly.EncodeInstruction(p.line, layout.labels) == Success(w) &&
            image[p.address..p.address + 4] == w
  {
    var layout := Assembly.FirstPassSpec(code).value;
    Assembly.AssembleImage(code);
    w := Assembly.EncodeInstruction(layout.pending[k].line, layout.labels).value;
  }

  /** A word of the image, once loaded at the program start, sits 2048
      cells further on. */
  lemma {:induction false} LoadedWord(image: seq<nat>, memory: seq<nat>, address: int, w: seq<nat>)
    requires |image| == IS.MemorySize && Assembly.Fits(image, address) && image[address..address + 4] == w
    requires VM.LoadCells(VM.Fresh.memory, image, IS.ProgramStart) == Some(memory)
    ensures IS.ProgramStart + address + 3 < |memory|
    ensures forall i :: 0 <= i < 4 ==> memory[IS.ProgramStart + address + i] == w[i]
  {
    LoadedImage(image, memory);
    forall i | 0 <= i < 4
      ensures memory[IS.ProgramStart + address + i] == w[i]
    {
      assert image[address + i] == image[address..address + 4][i];
    }
  }

  /** Fetching four byte cells at the program counter. */
  lemma {:induction false} FetchWord(m: VM.MachineState, w: seq<nat>, opcode: nat, regX: nat, regY: nat, immediate: nat)
    requires |w| == 4 && w[3] < 256
    requires 0 <= m.pc && m.pc + 3 < |m.memory| && forall i :: 0 <= i < 4 ==> m.memory[m.pc + i] == w[i]
    requires IS.SplitOpcodeByte(w[0]) == IS.Fields(opcode, regX, regY) && w[2] * 256 + w[3] == immediate
    ensures VM.Fetch(m) == Success(VM.Decoded(opcode, regX, regY, immediate))
  {
    assert m.memory[m.pc] == w[0] && m.memory[m.pc + 2] == w[2] && m.memory[m.pc + 3] == w[3];
    VM.ImmediateBytes(w[2], w[3]);
  }
}
