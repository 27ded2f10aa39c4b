/** The virtual machine: a memory of cells, four 16-bit registers, a program
    counter, a stack pointer, a running flag and a counter of consecutive
    `MOV R0, #0` instructions. One step fetches the four cells at the program
    counter, decodes them and executes the instruction. */
module VM {
  import opened Bits
  import opened Wrappers
  import IS = InstructionSet

  /** The ways a step fails; each stands for a `raise` of the source, or for
      an access outside the memory that the source does not guard. */
  datatype VmError =
    | FetchOutOfRange(pc: int)
    | BlankCode(count: nat)
    | LoadOutOfRange(address: nat)
    | StoreOutOfRange(address: nat)
    | StackOutOfRange(sp: int)
    | UnknownInterrupt(code: nat)
    | ProgramOutOfRange(start: int)

  /** The machine's state as a value. The memory is a list that a write one
      past its end extends; `output` collects the values interrupt 1 prints. */
  datatype MachineState = MachineState(memory: seq<nat>, registers: seq<nat>, pc: int, sp: int,
                                       running: bool, blankCount: nat, output: seq<nat>)

  /** Four registers. */
  predicate WellFormed(m: MachineState) {
    |m.registers| == 4
  }

  /** Four registers, each holding a 16-bit value. */
  predicate Valid(m: MachineState) {
    WellFormed(m) && forall r :: 0 <= r < 4 ==> m.registers[r] <= IS.RegisterMask
  }

  /** A new machine: 4096 zero cells, zero registers, the program counter at
      the program start, the stack pointer at the last cell, running. */
  const Fresh: MachineState :=
    MachineState(seq(IS.MemorySize, _ => 0), [0, 0, 0, 0], IS.ProgramStart, IS.MemorySize - 1, true, 0, [])

  lemma {:induction false} FreshValid()
    ensures Valid(Fresh) && |Fresh.memory| == IS.MemorySize
    ensures forall i :: 0 <= i < |Fresh.memory| ==> Fresh.memory[i] == 0
  {
  }

  /** A value masked with 0xFFFF: the value modulo 2^16, two's complement for a
      negative v. */
  function Mask16(v: int): (r: nat)
    ensures r <= IS.RegisterMask
    ensures 0 <= v <= IS.RegisterMask ==> r == v
  {
    v % 0x1_0000
  }

  /** For a non-negative value the modulus is the bitwise AND with the mask. */
  lemma {:induction false} Mask16IsAnd(v: nat)
    ensures Mask16(v) == And(v, IS.RegisterMask)
  {
    Pow2Values();
    AndLowMask(v, 16);
  }

  /** Writing cell i of the memory: a cell inside is replaced, a cell one
      past the end is appended; any other index is out of range. */
  function WriteCell(memory: seq<nat>, i: int, v: nat): (r: Option<seq<nat>>)
    ensures r.Some? <==> 0 <= i <= |memory|
    ensures r.Some? ==> |r.value| == (if i == |memory| then |memory| + 1 else |memory|) &&
                        r.value[i] == v &&
                        forall j :: 0 <= j < |memory| && j != i ==> r.value[j] == memory[j]
  {
    if 0 <= i < |memory| then Some(memory[i := v])
    else if i == |memory| then Some(memory + [v])
    else None
  }

  /** Loading a program: its cells written one after the other from the start
      address. */
  function LoadCells(memory: seq<nat>, program: seq<nat>, start: int): Option<seq<nat>>
    decreases |program|
  {
    if program == [] then Some(memory)
    else
      var next :- WriteCell(memory, start, program[0]);
      LoadCells(next, program[1..], start + 1)
  }

  /** A load from an address inside the memory, or just past its end, holds
      the program at the address and every other cell as it was, the memory
      growing as far as the program reaches; from any other address a
      non-empty program cannot be loaded. */
  lemma {:induction false} LoadContents(memory: seq<nat>, program: seq<nat>, start: int)
    ensures LoadCells(memory, program, start).None? <==> program != [] && !(0 <= start <= |memory|)
    ensures program == [] ==> LoadCells(memory, program, start) == Some(memory)
    ensures 0 <= start <= |memory| ==>
              var r := LoadCells(memory, program, start).value;
              |r| == (if start + |program| > |memory| then start + |program| else |memory|) &&
              (forall j :: 0 <= j < |program| ==> r[start + j] == program[j]) &&
              (forall j :: 0 <= j < |memory| && !(start <= j < start + |program|) ==> r[j] == memory[j])
    decreases |program|
  {
    if program != [] && 0 <= start <= |memory| {
      var next := WriteCell(memory, start, program[0]).value;
      LoadContents(next, program[1..], start + 1);
      var r := LoadCells(memory, program, start).value;
      assert r == LoadCells(next, program[1..], start + 1).value;
      forall j | 0 <= j < |program|
        ensures r[start + j] == program[j]
      {
        if j > 0 {
          assert program[1..][j - 1] == program[j];
        }
      }
    }
  }

  /** The fields of the instruction at the program counter: the opcode byte's
      three fields and the immediate built from the last two cells. */
  datatype Decoded = Decoded(opcode: nat, regX: nat, regY: nat, immediate: nat)

  /** Fetching needs the four cells from the program counter inside memory. */
  function Fetch(m: MachineState): (r: Result<Decoded, VmError>)
    ensures r.Success? <==> 0 <= m.pc && m.pc + 3 < |m.memory|
    ensures r.Success? ==> r.value.opcode < 16 && r.value.regX < 4 && r.value.regY < 4
    ensures r.Success? && m.memory[m.pc + 2] < 256 && m.memory[m.pc + 3] < 256 ==>
              r.value.immediate == m.memory[m.pc + 2] * 256 + m.memory[m.pc + 3]
  {
    if 0 <= m.pc && m.pc + 3 < |m.memory| then
      var f := IS.SplitOpcodeByte(m.memory[m.pc]);
      var high, low := m.memory[m.pc + 2], m.memory[m.pc + 3];
      ImmediateBytes(high, low);
      Success(Decoded(f.opcode, f.regX, f.regY, Or(high * 256, low)))
    else
      Failure(FetchOutOfRange(m.pc))
  }

  /** The high byte shifted left by eight and ORed with the low byte is
      high * 256 + low when low is a byte. */
  lemma {:induction false} ImmediateBytes(high: nat, low: nat)
    ensures low < 256 ==> Or(high * 256, low) == high * 256 + low
  {
    Pow2Values();
    if low < 256 {
      OrDisjoint(high, low, 8);
    }
  }

  /** Pushing a word: the stack pointer moves down by two and the value's high
      and low bytes go into the two cells above it. */
  function Push(m: MachineState, value: int): (r: Result<MachineState, VmError>)
    ensures r.Success? <==> 1 <= m.sp <= |m.memory| + 1
    ensures r.Success? ==> r.value == m.(sp := r.value.sp, memory := r.value.memory)
  {
    var v := Mask16(value);
    var sp := m.sp - 2;
    match WriteCell(m.memory, sp + 1, (v / 256) % 256)
    case None => Failure(StackOutOfRange(m.sp))
    case Some(highWritten) =>
      match WriteCell(highWritten, sp + 2, v % 256)
      case None => Failure(StackOutOfRange(m.sp))
      case Some(lowWritten) => Success(m.(sp := sp, memory := lowWritten))
  }

  /** What a push writes: the stack pointer moves down by two, the high byte
      of the 16-bit value lands at the new SP + 1 and the low byte at the new
      SP + 2, and every other cell, the program below the stack included, is
      kept; the memory grows only as far as those two cells need. */
  lemma {:induction false} PushWrites(m: MachineState, value: int)
    requires Push(m, value).Success?
    ensures var r := Push(m, value).value;
            r.sp == m.sp - 2 &&
            |r.memory| == (if m.sp + 1 > |m.memory| then m.sp + 1 else |m.memory|) &&
            r.memory[m.sp - 1] == (Mask16(value) / 256) % 256 &&
            r.memory[m.sp] == Mask16(value) % 256 &&
            forall i :: 0 <= i < |m.memory| && i != m.sp - 1 && i != m.sp ==> r.memory[i] == m.memory[i]
  {
    var v := Mask16(value);
    var mem1 := WriteCell(m.memory, m.sp - 1, (v / 256) % 256).value;
    var mem2 := WriteCell(mem1, m.sp, v % 256).value;
    assert Push(m, value).value == m.(sp := m.sp - 2, memory := mem2);
  }

  /** A popped word and the state after the pop. */
  datatype Popped = Popped(state: MachineState, value: nat)

  /** Popping a word: the two cells above the stack pointer read as high and
      low byte, and the stack pointer moves up by two. */
  function Pop(m: MachineState): (r: Result<Popped, VmError>)
    ensures r.Success? <==> 0 <= m.sp + 1 && m.sp + 2 < |m.memory|
    ensures r.Success? ==> r.value.state == m.(sp := m.sp + 2) && r.value.value <= IS.RegisterMask
  {
    if 0 <= m.sp + 1 && m.sp + 2 < |m.memory| then
      var high, low := m.memory[m.sp + 1], m.memory[m.sp + 2];
      Success(Popped(m.(sp := m.sp + 2), Mask16(Or(high * 256, low))))
    else
      Failure(StackOutOfRange(m.sp))
  }

  /** A pushed value pops back masked to 16 bits, and the stack pointer returns
      to where it was. */
  lemma {:induction false} PushPop(m: MachineState, value: int)
    requires Push(m, value).Success?
    ensures var pushed := Push(m, value).value;
            pushed.sp == m.sp - 2 &&
            Pop(pushed) == Success(Popped(pushed.(sp := m.sp), Mask16(value)))
  {
    var v := Mask16(value);
    var high, low := (v / 256) % 256, v % 256;
    var mem1 := WriteCell(m.memory, m.sp - 1, high).value;
    var mem2 := WriteCell(mem1, m.sp, low).value;
    var pushed := Push(m, value).value;
    assert pushed == m.(sp := m.sp - 2, memory := mem2);
    assert mem2[m.sp - 1] == high && mem2[m.sp] == low;
    WordBytes(v);
    ImmediateBytes(high, low);
  }

  /** A 16-bit value is its high byte times 256 plus its low byte. */
  lemma {:induction false} WordBytes(v: nat)
    requires v <= IS.RegisterMask
    ensures (v / 256) % 256 * 256 + v % 256 == v
  {
    DivModUnique(v / 256, 256, 0, v / 256);
  }

  /** Pushing each value in turn. */
  function PushAll(m: MachineState, values: seq<nat>): Result<MachineState, VmError>
    decreases |values|
  {
    if values == [] then Success(m)
    else
      var before :- PushAll(m, values[..|values| - 1]);
      Push(before, values[|values| - 1])
  }

  /** Popping n words; the values in the order they come off the stack. */
  function PopAll(m: MachineState, n: nat): Result<(MachineState, seq<nat>), VmError>
    decreases n
  {
    if n == 0 then Success((m, []))
    else
      var p :- Pop(m);
      var rest :- PopAll(p.state, n - 1);
      Success((rest.0, [p.value] + rest.1))
  }

  /** The values in reverse order. */
  function Reverse(values: seq<nat>): (r: seq<nat>)
    ensures |r| == |values| && forall i :: 0 <= i < |values| ==> r[i] == values[|values| - 1 - i]
  {
    if values == [] then [] else [values[|values| - 1]] + Reverse(values[..|values| - 1])
  }

  /** Every value masked to 16 bits. */
  function MaskAll(values: seq<nat>): (r: seq<nat>)
    ensures |r| == |values| && forall i :: 0 <= i < |values| ==> r[i] == Mask16(values[i])
  {
    if values == [] then [] else MaskAll(values[..|values| - 1]) + [Mask16(values[|values| - 1])]
  }

  /** Pops see only the stack pointer and the cells above it: two states that
      agree on those pop the same values and end at the same stack pointer. */
  lemma {:induction false} PopAllFrame(a: MachineState, b: MachineState, n: nat)
    requires a.sp == b.sp && |a.memory| == |b.memory|
    requires forall i :: 0 <= i < |a.memory| && a.sp < i ==> a.memory[i] == b.memory[i]
    ensures PopAll(a, n).Success? == PopAll(b, n).Success?
    ensures PopAll(a, n).Success? ==>
              PopAll(a, n).value.1 == PopAll(b, n).value.1 && PopAll(a, n).value.0.sp == PopAll(b, n).value.0.sp
    decreases n
  {
    if n > 0 && Pop(a).Success? {
      PopAllFrame(Pop(a).value.state, Pop(b).value.state, n - 1);
    }
  }

  /** Last in, first out: after pushing values one by one, popping as many
      gives them back in reverse order, each masked to 16 bits, and the stack
      pointer is back where it started. */
  lemma {:induction false} PushAllPopAll(m: MachineState, values: seq<nat>)
    requires PushAll(m, values).Success?
    ensures PopAll(PushAll(m, values).value, |values|).Success?
    ensures var popped := PopAll(PushAll(m, values).value, |values|).value;
            popped.1 == Reverse(MaskAll(values)) && popped.0.sp == m.sp
    decreases |values|
  {
    if values != [] {
      var init, last := values[..|values| - 1], values[|values| - 1];
      var before := PushAll(m, init).value;
      var pushed := Push(before, last).value;
      PushAllPopAll(m, init);
      PushPop(before, last);
      var after := pushed.(sp := before.sp);
      if init != [] {
        assert before.sp + 2 < |before.memory|;
        FrameAfterPush(before, after, last);
        PopAllFrame(before, after, |init|);
      }
      assert MaskAll(values)[..|init|] == MaskAll(init);
      assert Reverse(MaskAll(values)) == [Mask16(last)] + Reverse(MaskAll(init));
    }
  }

  /** A push, once its word is popped again, leaves the cells above the stack
      pointer as they were. */
  lemma {:induction false} FrameAfterPush(before: MachineState, after: MachineState, value: nat)
    requires Push(before, value).Success? && after == Push(before, value).value.(sp := before.sp)
    requires before.sp < |before.memory|
    ensures after.sp == before.sp && |after.memory| == |before.memory|
    ensures forall i :: 0 <= i < |before.memory| && before.sp < i ==> after.memory[i] == before.memory[i]
  {
  }

  /** Interrupts: 0 stops the machine, 1 prints register 0, 2 to 4 read input
      or print memory (no effect on this model's state), and any other code is
      an error. */
  function Interrupt(m: MachineState, code: nat): (r: Result<MachineState, VmError>)
    requires WellFormed(m)
    ensures r.Failure? <==> code > 4
    ensures r.Success? ==> r.value.memory == m.memory && r.value.registers == m.registers &&
                           r.value.pc == m.pc && r.value.sp == m.sp
  {
    if code == 0 then Success(m.(running := false))
    else if code == 1 then Success(m.(output := m.output + [m.registers[0]]))
    else if code == 2 || code == 3 || code == 4 then Success(m)
    else Failure(UnknownInterrupt(code))
  }

  /** The default end of a step: the program counter moves on by four, and
      the machine stops once it reaches the end of the 4096-cell address
      space. */
  function Advance(m: MachineState): (r: MachineState)
    ensures r == m.(pc := m.pc + 4, running := r.running)
    ensures r.running <==> m.running && m.pc + 4 < IS.MemorySize
  {
    var pc := m.pc + 4;
    m.(pc := pc, running := if pc >= IS.MemorySize then false else m.running)
  }

  /** The instruction's own effect, after the fetch and the blank-code check. */
  function Execute(m: MachineState, d: Decoded): (r: Result<MachineState, VmError>)
    requires WellFormed(m) && d.regX < 4 && d.regY < 4
    ensures r.Success? ==> WellFormed(r.value) && r.value.blankCount == m.blankCount
  {
    var regs, x, y, imm := m.registers, d.regX, d.regY, d.immediate;
    if d.opcode == IS.MOV then
      Success(Advance(m.(registers := regs[x := Mask16(if y == 0 then imm else regs[y])])))
    else if d.opcode == IS.ADD then
      Success(Advance(m.(registers := regs[x := Mask16(Mask16(regs[x]) + Mask16(regs[y]))])))
    else if d.opcode == IS.SUB then
      Success(Advance(m.(registers := regs[x := Mask16(regs[x] as int - regs[y])])))
    else if d.opcode == IS.MUL then
      Success(Advance(m.(registers := regs[x := Mask16(Times(regs[x], regs[y]))])))
    else if d.opcode == IS.DIV then
      if regs[y] == 0 then Success(Advance(m))
      else Success(Advance(m.(registers := regs[x := Mask16(Quotient(regs[x], regs[y]))])))
    else if d.opcode == IS.LOAD then
      if imm < |m.memory| then Success(Advance(m.(registers := regs[x := Mask16(m.memory[imm])])))
      else Failure(LoadOutOfRange(imm))
    else if d.opcode == IS.STORE then
      match WriteCell(m.memory, imm, Mask16(regs[x]))
      case None => Failure(StoreOutOfRange(imm))
      case Some(mem) => Success(Advance(m.(memory := mem)))
    else if d.opcode == IS.JMP then
      Success(m.(pc := imm))
    else if d.opcode == IS.JEQ then
      if regs[x] == regs[y] then Success(m.(pc := imm)) else Success(Advance(m))
    else if d.opcode == IS.JNE then
      if regs[x] != regs[y] then Success(m.(pc := imm)) else Success(Advance(m))
    else if d.opcode == IS.CALL then
      var pushed :- Push(m, m.pc + 4);
      Success(pushed.(pc := imm))
    else if d.opcode == IS.RET then
      var p :- Pop(m);
      Success(p.state.(pc := p.value))
    else if d.opcode == IS.PUSH then
      var pushed :- Push(m, regs[x]);
      Success(Advance(pushed))
    else if d.opcode == IS.POP then
      var p :- Pop(m);
      Success(Advance(p.state.(registers := regs[x := p.value])))
    else if d.opcode == IS.INT then
      var after :- Interrupt(m, imm);
      Success(Advance(after))
    else
      Success(m)
  }

  /** Whether the instruction is `MOV R0, #0`, the word of a zero-filled
      memory. */
  predicate IsBlank(d: Decoded) {
    d.opcode == IS.MOV && d.regX == 0 && d.regY == 0 && d.immediate == 0
  }

  /** One step: fetch and decode, count consecutive `MOV R0, #0` and stop with
      an error at the second in a row, then execute. */
  function Step(m: MachineState): (r: Result<MachineState, VmError>)
    requires WellFormed(m)
    ensures r.Success? ==> WellFormed(r.value)
  {
    var d :- Fetch(m);
    var count := if IsBlank(d) then m.blankCount + 1 else 0;
    if count > 1 then Failure(BlankCode(count))
    else Execute(m.(blankCount := count), d)
  }

  /** A step function defined on every machine with four registers, whose
      successful steps keep four registers. */
  ghost predicate Closed(step: MachineState --> Result<MachineState, VmError>) {
    forall m :: WellFormed(m) ==> step.requires(m) && (step(m).Success? ==> WellFormed(step(m).value))
  }

  /** Up to fuel applications of a step function while the machine runs; the
      first error ends the run. */
  function Iterate(step: MachineState --> Result<MachineState, VmError>, m: MachineState, fuel: nat)
    : (r: Result<MachineState, VmError>)
    requires Closed(step) && WellFormed(m)
    ensures r.Success? ==> WellFormed(r.value)
    decreases fuel
  {
    if !m.running || fuel == 0 then Success(m)
    else
      var next :- step(m);
      Iterate(step, next, fuel - 1)
  }

  /** A stopped machine is not stepped any further. */
  lemma {:induction false} IterateStopped(step: MachineState --> Result<MachineState, VmError>, m: MachineState, fuel: nat)
    requires Closed(step) && WellFormed(m) && !m.running
    ensures Iterate(step, m, fuel) == Success(m)
  {
  }

  /** Iterating a + b times is iterating a times and then b more. */
  lemma {:induction false} IterateCompose(step: MachineState --> Result<MachineState, VmError>, m: MachineState, a: nat, b: nat)
    requires Closed(step) && WellFormed(m)
    ensures Iterate(step, m, a + b)
         == (match Iterate(step, m, a) case Success(mid) => Iterate(step, mid, b) case Failure(e) => Failure(e))
    decreases a
  {
    if a > 0 && m.running && step(m).Success? {
      assert a + b - 1 == (a - 1) + b;
      IterateCompose(step, step(m).value, a - 1, b);
    }
  }

  /** A property that every successful step keeps holds after the run. */
  lemma {:induction false} IterateKeeps(step: MachineState --> Result<MachineState, VmError>,
                                        inv: MachineState -> bool, m: MachineState, fuel: nat)
    requires Closed(step) && WellFormed(m) && inv(m)
    requires forall s :: WellFormed(s) && inv(s) && step(s).Success? ==> inv(step(s).value)
    requires Iterate(step, m, fuel).Success?
    ensures inv(Iterate(step, m, fuel).value)
    decreases fuel
  {
    if m.running && fuel > 0 {
      IterateKeeps(step, inv, step(m).value, fuel - 1);
    }
  }

  lemma {:induction false} StepClosed()
    ensures Closed(Step)
  {
  }

  /** Up to fuel steps of the machine while it runs; the first error ends
      the run. */
  function Steps(m: MachineState, fuel: nat): (r: Result<MachineState, VmError>)
    requires WellFormed(m)
    ensures r.Success? ==> WellFormed(r.value)
  {
    StepClosed();
    Iterate(Step, m, fuel)
  }

  /** A running machine with fuel left runs its first step, then the rest. */
  lemma {:induction false} StepsUnfold(m: MachineState, fuel: nat)
    requires WellFormed(m) && m.running && fuel > 0
    ensures Steps(m, fuel) == match Step(m) case Success(next) => Steps(next, fuel - 1) case Failure(e) => Failure(e)
  {
    StepClosed();
  }

  /** A run from a start address. */
  function RunFrom(m: MachineState, start: int, fuel: nat): Result<MachineState, VmError>
    requires WellFormed(m)
  {
    Steps(m.(pc := start), fuel)
  }

  // ----- What a step does -----

  /** Every step keeps each register a 16-bit value. */
  lemma {:induction false} StepKeepsValid(m: MachineState)
    requires Valid(m) && Step(m).Success?
    ensures Valid(Step(m).value)
  {
    var d := Fetch(m).value;
    var count := if IsBlank(d) then m.blankCount + 1 else 0;
    ExecuteKeepsValid(m.(blankCount := count), d);
  }

  lemma {:induction false} ExecuteKeepsValid(m: MachineState, d: Decoded)
    requires Valid(m) && d.regX < 4 && d.regY < 4 && Execute(m, d).Success?
    ensures Valid(Execute(m, d).value)
  {
    var r := Execute(m, d).value;
    if d.opcode <= IS.LOAD || d.opcode == IS.POP {
      assert r.registers == m.registers[d.regX := r.registers[d.regX]];
      assert r.registers[d.regX] <= IS.RegisterMask;
    } else {
      assert r.registers == m.registers;
    }
  }

  /** A run of any length keeps each register a 16-bit value. */
  lemma {:induction false} RunKeepsValid(m: MachineState, fuel: nat)
    requires Valid(m) && Steps(m, fuel).Success?
    ensures Valid(Steps(m, fuel).value)
  {
    StepClosed();
    forall s | WellFormed(s) && Valid(s) && Step(s).Success?
      ensures Valid(Step(s).value)
    {
      StepKeepsValid(s);
    }
    IterateKeeps(Step, Valid, m, fuel);
  }

  /** Every memory cell holds a 16-bit value. */
  predicate CellsFit(m: MachineState) {
    forall i :: 0 <= i < |m.memory| ==> m.memory[i] <= IS.RegisterMask
  }

  /** A push writes two bytes. */
  lemma {:induction false} PushKeepsCells(m: MachineState, value: int)
    requires CellsFit(m) && Push(m, value).Success?
    ensures CellsFit(Push(m, value).value)
  {
    var v := Mask16(value);
    var mem1 := WriteCell(m.memory, m.sp - 1, (v / 256) % 256).value;
    var mem2 := WriteCell(mem1, m.sp, v % 256).value;
    assert Push(m, value).value.memory == mem2;
  }

  /** An instruction writes only 16-bit values into memory: STORE a masked
      register, CALL and PUSH two bytes each. */
  lemma {:induction false} ExecuteKeepsCells(m: MachineState, d: Decoded)
    requires WellFormed(m) && CellsFit(m) && d.regX < 4 && d.regY < 4 && Execute(m, d).Success?
    ensures CellsFit(Execute(m, d).value)
  {
    var r := Execute(m, d).value;
    if d.opcode == IS.STORE {
      assert r.memory == WriteCell(m.memory, d.immediate, Mask16(m.registers[d.regX])).value;
    } else if d.opcode == IS.CALL {
      PushKeepsCells(m, m.pc + 4);
      assert r.memory == Push(m, m.pc + 4).value.memory;
    } else if d.opcode == IS.PUSH {
      PushKeepsCells(m, m.registers[d.regX]);
      assert r.memory == Push(m, m.registers[d.regX]).value.memory;
    } else {
      assert r.memory == m.memory;
    }
  }

  /** A run of any length keeps every memory cell a 16-bit value. */
  lemma {:induction false} RunKeepsCells(m: MachineState, fuel: nat)
    requires WellFormed(m) && CellsFit(m) && Steps(m, fuel).Success?
    ensures CellsFit(Steps(m, fuel).value)
  {
    StepClosed();
    forall s | WellFormed(s) && CellsFit(s) && Step(s).Success?
      ensures CellsFit(Step(s).value)
    {
      var d := Fetch(s).value;
      var count := if IsBlank(d) then s.blankCount + 1 else 0;
      ExecuteKeepsCells(s.(blankCount := count), d);
    }
    IterateKeeps(Step, CellsFit, m, fuel);
  }

  /** What an arithmetic or move instruction leaves unchanged: every other
      register, the memory and the stack pointer; the program counter moves
      on by four. */
  predicate WritesOnly(m: MachineState, d: Decoded, r: MachineState)
    requires WellFormed(m) && WellFormed(r) && d.regX < 4
  {
    r.memory == m.memory && r.sp == m.sp && r.pc == m.pc + 4 &&
    forall i :: 0 <= i < 4 && i != d.regX ==> r.registers[i] == m.registers[i]
  }

  /** MOV copies the immediate when regY is 0 and register regY otherwise,
      masked to 16 bits. */
  lemma {:induction false} MoveResult(m: MachineState, d: Decoded)
    requires Valid(m) && d.regX < 4 && d.regY < 4 && d.opcode == IS.MOV
    ensures Execute(m, d).Success? && WritesOnly(m, d, Execute(m, d).value)
    ensures Execute(m, d).value.registers[d.regX]
         == if d.regY == 0 then Mask16(d.immediate) else m.registers[d.regY]
  {
  }

  /** ADD wraps modulo 2^16. */
  lemma {:induction false} AddResult(m: MachineState, d: Decoded)
    requires Valid(m) && d.regX < 4 && d.regY < 4 && d.opcode == IS.ADD
    ensures Execute(m, d).Success? && WritesOnly(m, d, Execute(m, d).value)
    ensures Execute(m, d).value.registers[d.regX] == (m.registers[d.regX] + m.registers[d.regY]) % 0x1_0000
  {
  }

  /** SUB wraps modulo 2^16: a negative difference becomes its two's
      complement. */
  lemma {:induction false} SubResult(m: MachineState, d: Decoded)
    requires Valid(m) && d.regX < 4 && d.regY < 4 && d.opcode == IS.SUB
    ensures Execute(m, d).Success? && WritesOnly(m, d, Execute(m, d).value)
    ensures Execute(m, d).value.registers[d.regX] == (m.registers[d.regX] as int - m.registers[d.regY]) % 0x1_0000
  {
  }

  /** MUL wraps modulo 2^16. */
  lemma {:induction false} MulResult(m: MachineState, d: Decoded)
    requires Valid(m) && d.regX < 4 && d.regY < 4 && d.opcode == IS.MUL
    ensures Execute(m, d).Success? && WritesOnly(m, d, Execute(m, d).value)
    ensures Execute(m, d).value.registers[d.regX] == (m.registers[d.regX] * m.registers[d.regY]) % 0x1_0000
  {
    TimesIsProduct(m.registers[d.regX], m.registers[d.regY]);
  }

  /** DIV truncates; dividing by zero leaves the destination as it was. */
  lemma {:induction false} DivResult(m: MachineState, d: Decoded)
    requires Valid(m) && d.regX < 4 && d.regY < 4 && d.opcode == IS.DIV
    ensures Execute(m, d).Success? && WritesOnly(m, d, Execute(m, d).value)
    ensures var x, y := m.registers[d.regX], m.registers[d.regY];
            Execute(m, d).value.registers[d.regX] == if y == 0 then x else x / y
  {
    var x, y := m.registers[d.regX], m.registers[d.regY];
    if y != 0 {
      QuotientIsDiv(x, y);
      QuotientAtMost(x, y);
    }
  }

  /** A STORE followed by a LOAD of the same cell copies the whole 16-bit
      register, not only its low byte. */
  lemma {:induction false} StoreThenLoad(m: MachineState, store: Decoded, load: Decoded)
    requires Valid(m) && store.opcode == IS.STORE && load.opcode == IS.LOAD
    requires store.regX < 4 && store.regY < 4 && load.regX < 4 && load.regY < 4
    requires store.immediate == load.immediate && store.immediate < |m.memory|
    ensures Execute(m, store).Success?
    ensures Execute(Execute(m, store).value, load).Success?
    ensures Execute(Execute(m, store).value, load).value.registers[load.regX] == m.registers[store.regX]
  {
  }

  /** A CALL pushes the address of the next instruction and jumps; a RET
      executed at the target returns there, with the stack pointer back at
      its value before the CALL. */
  lemma {:induction false} CallThenReturn(m: MachineState, call: Decoded, ret: Decoded)
    requires WellFormed(m) && call.opcode == IS.CALL && ret.opcode == IS.RET
    requires call.regX < 4 && call.regY < 4 && ret.regX < 4 && ret.regY < 4
    requires 0 <= m.pc && m.pc + 4 <= IS.RegisterMask && 1 <= m.sp <= |m.memory|
    ensures Execute(m, call).Success?
    ensures var called := Execute(m, call).value;
            called.pc == call.immediate && called.sp == m.sp - 2 &&
            Execute(called, ret).Success? &&
            Execute(called, ret).value.pc == m.pc + 4 && Execute(called, ret).value.sp == m.sp
  {
    PushPop(m, m.pc + 4);
  }

  /** The blank-code guard: `MOV R0, #0` right after another one stops the
      machine with an error; a first one runs and sets the count to 1; any
      other instruction that runs sets it back to 0. */
  lemma {:induction false} BlankGuard(m: MachineState)
    requires WellFormed(m) && Fetch(m).Success?
    ensures IsBlank(Fetch(m).value) && m.blankCount >= 1 ==> Step(m) == Failure(BlankCode(m.blankCount + 1))
    ensures IsBlank(Fetch(m).value) && m.blankCount == 0 ==> Step(m).Success? && Step(m).value.blankCount == 1
    ensures !IsBlank(Fetch(m).value) && Step(m).Success? ==> Step(m).value.blankCount == 0
  {
    var d := Fetch(m).value;
    if IsBlank(d) && m.blankCount == 0 {
      assert d.opcode == IS.MOV;
    }
  }

  /** Two `MOV R0, #0` in a row: the second step fails, reporting the count 2. */
  lemma {:induction false} BlankTwice(m: MachineState)
    requires WellFormed(m) && Fetch(m).Success? && IsBlank(Fetch(m).value) && Step(m).Success?
    requires Fetch(Step(m).value).Success? && IsBlank(Fetch(Step(m).value).value)
    ensures Step(Step(m).value) == Failure(BlankCode(2))
  {
    BlankGuard(m);
    BlankGuard(Step(m).value);
  }

  /** Where a successful step leaves the program counter and the running
      flag: jumps that are taken, CALL and RET set the counter and leave the
      flag alone; every other instruction moves on by four, and stops the
      machine at the end of the address space (INT 0 stops it in any case);
      EXTENDED changes nothing but the blank count. */
  lemma {:induction false} StepControl(m: MachineState)
    requires WellFormed(m) && Step(m).Success?
    ensures var d, r := Fetch(m).value, Step(m).value;
            var x, y := m.registers[d.regX], m.registers[d.regY];
            var advanced := r.pc == m.pc + 4 && (r.running <==> m.running && m.pc + 4 < IS.MemorySize);
            (d.opcode in {IS.MOV, IS.ADD, IS.SUB, IS.MUL, IS.DIV, IS.LOAD, IS.STORE, IS.PUSH, IS.POP} ==> advanced) &&
            (d.opcode == IS.INT && d.immediate != 0 ==> advanced) &&
            (d.opcode == IS.INT && d.immediate == 0 ==> r.pc == m.pc + 4 && !r.running) &&
            (d.opcode == IS.JMP ==> r.pc == d.immediate && r.running == m.running) &&
            (d.opcode == IS.JEQ && x == y ==> r.pc == d.immediate && r.running == m.running) &&
            (d.opcode == IS.JEQ && x != y ==> advanced) &&
            (d.opcode == IS.JNE && x != y ==> r.pc == d.immediate && r.running == m.running) &&
            (d.opcode == IS.JNE && x == y ==> advanced) &&
            (d.opcode == IS.CALL ==> r.pc == d.immediate && r.running == m.running) &&
            (d.opcode == IS.RET ==> r.pc == Pop(m).value.value && r.running == m.running) &&
            (d.opcode == IS.EXTENDED ==> r == m.(blankCount := 0))
  {
  }

  // ----- Runs -----

  /** A stopped machine runs no further. */
  lemma {:induction false} RunStopped(m: MachineState, fuel: nat)
    requires WellFormed(m) && !m.running
    ensures Steps(m, fuel) == Success(m)
  {
    StepClosed();
    IterateStopped(Step, m, fuel);
  }

  /** Running a + b steps is running a steps and then b more. */
  lemma {:induction false} RunCompose(m: MachineState, a: nat, b: nat)
    requires WellFormed(m)
    ensures Steps(m, a + b) == (match Steps(m, a) case Success(mid) => Steps(mid, b) case Failure(e) => Failure(e))
  {
    StepClosed();
    IterateCompose(Step, m, a, b);
  }

  /** Once a run has stopped the machine, more fuel changes nothing. */
  lemma {:induction false} RunMoreFuel(m: MachineState, fuel: nat, more: nat)
    requires WellFormed(m) && Steps(m, fuel).Success? && !Steps(m, fuel).value.running
    ensures Steps(m, fuel + more) == Steps(m, fuel)
  {
    RunCompose(m, fuel, more);
    RunStopped(Steps(m, fuel).value, more);
  }

  /** A new machine whose memory is still zero fails at its second step: the
      zero word reads as `MOV R0, #0`. */
  lemma {:induction false} FreshRunsBlank()
    ensures RunFrom(Fresh, IS.ProgramStart, 2) == Failure(BlankCode(2))
  {
    var m := Fresh.(pc := IS.ProgramStart);
    var zero := IS.SplitOpcodeByte(0);
    assert zero == IS.Fields(0, 0, 0);
    assert Or(0 * 256, 0) == 0;
    assert Fetch(m) == Success(Decoded(0, 0, 0, 0));
    var m1 := Step(m).value;
    assert Fetch(m1) == Success(Decoded(0, 0, 0, 0));
    BlankTwice(m);
  }

  // ----- The machine object -----

  /** The machine: its memory (a list that grows when written one past its
      end), four registers, program counter, stack pointer, running flag, the
      count of consecutive `MOV R0, #0` and what interrupt 1 has printed. */
  class VirtualMachine {
    var memory: seq<nat>
    const registers: array<nat>
    var pc: int
    var sp: int
    var running: bool
    var consecutiveMovR0: nat
    var output: seq<nat>

    /** The state as a value. */
    function Snapshot(): MachineState
      reads this, registers
    {
      MachineState(memory, registers[..], pc, sp, running, consecutiveMovR0, output)
    }

    /** Whether an operation reported err and left the state r describes. */
    predicate Reached(err: Option<VmError>, r: Result<MachineState, VmError>)
      reads this, registers
    {
      match r
      case Success(m) => err == None && Snapshot() == m
      case Failure(e) => err == Some(e)
    }

    /** A new machine. */
    constructor ()
      ensures Snapshot() == Fresh && registers.Length == 4 && fresh(registers)
    {
      memory := seq(IS.MemorySize, _ => 0);
      registers := new nat[4](_ => 0);
      pc := IS.ProgramStart;
      sp := IS.MemorySize - 1;
      running := true;
      consecutiveMovR0 := 0;
      output := [];
      new;
      assert registers[..] == [0, 0, 0, 0];
    }

    /** Copies a program into memory from the start address, cell by cell;
        nothing but the memory changes. */
    method LoadProgram(program: seq<nat>, start: int) returns (err: Option<VmError>)
      modifies this
      ensures Snapshot() == old(Snapshot()).(memory := memory)
      ensures match LoadCells(old(memory), program, start)
              case Some(cells) => err == None && memory == cells
              case None => err == Some(ProgramOutOfRange(start))
    {
      var i := 0;
      while i < |program|
        invariant 0 <= i <= |program|
        invariant Snapshot() == old(Snapshot()).(memory := memory)
        invariant LoadCells(memory, program[i..], start + i) == LoadCells(old(memory), program, start)
      {
        assert program[i..][0] == program[i] && program[i..][1..] == program[i + 1..];
        match WriteCell(memory, start + i, program[i])
        case None =>
          return Some(ProgramOutOfRange(start));
        case Some(cells) =>
          memory := cells;
        i := i + 1;
      }
      return None;
    }

    /** Runs from the start address while the machine is running, for at most
        fuel steps; the first error ends the run. */
    method Run(start: int, fuel: nat) returns (err: Option<VmError>)
      requires registers.Length == 4
      modifies this, registers
      ensures Reached(err, RunFrom(old(Snapshot()), start, fuel))
    {
      ghost var initial := old(Snapshot()).(pc := start);
      pc := start;
      assert Snapshot() == initial;
      var remaining := fuel;
      while running && remaining > 0
        invariant Steps(Snapshot(), remaining) == Steps(initial, fuel)
      {
        StepsUnfold(Snapshot(), remaining);
        err := ExecuteInstruction();
        if err.Some? {
          return;
        }
        remaining := remaining - 1;
      }
      return None;
    }

    /** One step: fetch and decode the word at the program counter, apply the
        blank-code guard, then execute. */
    method ExecuteInstruction() returns (err: Option<VmError>)
      requires registers.Length == 4
      modifies this, registers
      ensures Reached(err, Step(old(Snapshot())))
    {
      if !(0 <= pc && pc + 3 < |memory|) {
        return Some(FetchOutOfRange(pc));
      }
      var fields := IS.SplitOpcodeByte(memory[pc]);
      var opcode, regX, regY := fields.opcode, fields.regX, fields.regY;
      var immediate := Or(memory[pc + 2] * 256, memory[pc + 3]);
      if opcode == IS.MOV && regX == 0 && regY == 0 && immediate == 0 {
        consecutiveMovR0 := consecutiveMovR0 + 1;
        if consecutiveMovR0 > 1 {
          return Some(BlankCode(consecutiveMovR0));
        }
      } else {
        consecutiveMovR0 := 0;
      }
      err := Dispatch(Decoded(opcode, regX, regY, immediate));
    }

    /** The instruction's own effect, by opcode group. Jumps, CALL, RET and
        EXTENDED set the program counter themselves; every other instruction
        ends by moving it on by four. */
    method Dispatch(d: Decoded) returns (err: Option<VmError>)
      requires registers.Length == 4 && d.regX < 4 && d.regY < 4
      modifies this, registers
      ensures Reached(err, Execute(old(Snapshot()), d))
    {
      if d.opcode <= IS.DIV {
        Arithmetic(d);
        err := None;
      } else if d.opcode <= IS.STORE {
        err := MemoryAccess(d);
      } else if d.opcode <= IS.JNE {
        Branch(d);
        err := None;
      } else if d.opcode <= IS.RET {
        err := Subroutine(d);
      } else if d.opcode <= IS.POP {
        err := StackAccess(d);
      } else if d.opcode == IS.INT {
        err := HandleInterrupt(d.immediate);
        if err.None? {
          AdvancePc();
        }
      } else {
        err := None;
      }
    }

    /** MOV, ADD, SUB, MUL and DIV: register x receives the 16-bit result,
        except that dividing by zero leaves it alone. */
    method Arithmetic(d: Decoded)
      requires registers.Length == 4 && d.regX < 4 && d.regY < 4 && d.opcode <= IS.DIV
      modifies this, registers
      ensures Reached(None, Execute(old(Snapshot()), d))
    {
      ghost var m0 := Snapshot();
      var regs, x, y := registers[..], d.regX, d.regY;
      var value;
      if d.opcode == IS.MOV {
        value := Mask16(if y == 0 then d.immediate else regs[y]);
      } else if d.opcode == IS.ADD {
        value := Mask16(Mask16(regs[x]) + Mask16(regs[y]));
      } else if d.opcode == IS.SUB {
        value := Mask16(regs[x] as int - regs[y]);
      } else if d.opcode == IS.MUL {
        value := Mask16(Times(regs[x], regs[y]));
      } else if regs[y] == 0 {
        assert Execute(m0, d) == Success(Advance(m0));
        AdvancePc();
        return;
      } else {
        value := Mask16(Quotient(regs[x], regs[y]));
      }
      assert Execute(m0, d) == Success(Advance(m0.(registers := regs[x := value])));
      SetRegister(x, value);
      AdvancePc();
    }

    /** LOAD and STORE: a memory cell into register x, or register x into a
        memory cell, each as a 16-bit value. */
    method MemoryAccess(d: Decoded) returns (err: Option<VmError>)
      requires registers.Length == 4 && d.regX < 4 && d.regY < 4 && (d.opcode == IS.LOAD || d.opcode == IS.STORE)
      modifies this, registers
      ensures Reached(err, Execute(old(Snapshot()), d))
    {
      var address := d.immediate;
      if d.opcode == IS.LOAD {
        if address >= |memory| {
          return Some(LoadOutOfRange(address));
        }
        SetRegister(d.regX, Mask16(memory[address]));
      } else {
        match WriteCell(memory, address, Mask16(registers[d.regX]))
        case None =>
          return Some(StoreOutOfRange(address));
        case Some(cells) =>
          memory := cells;
      }
      AdvancePc();
      return None;
    }

    /** JMP, JEQ and JNE: a taken jump sets the program counter to the
        immediate, an untaken one moves on by four. */
    method Branch(d: Decoded)
      requires registers.Length == 4 && d.regX < 4 && d.regY < 4 && IS.JMP <= d.opcode <= IS.JNE
      modifies this
      ensures Reached(None, Execute(old(Snapshot()), d))
    {
      var taken := d.opcode == IS.JMP
                   || (d.opcode == IS.JEQ && registers[d.regX] == registers[d.regY])
                   || (d.opcode == IS.JNE && registers[d.regX] != registers[d.regY]);
      if taken {
        pc := d.immediate;
      } else {
        AdvancePc();
      }
    }

    /** CALL pushes the address of the next instruction and jumps to the
        immediate; RET pops the program counter. */
    method Subroutine(d: Decoded) returns (err: Option<VmError>)
      requires registers.Length == 4 && d.regX < 4 && d.regY < 4 && (d.opcode == IS.CALL || d.opcode == IS.RET)
      modifies this
      ensures Reached(err, Execute(old(Snapshot()), d))
    {
      if d.opcode == IS.CALL {
        err := PushWord(pc + 4);
        if err.Some? {
          return;
        }
        pc := d.immediate;
      } else {
        var popped := PopWord();
        if popped.Failure? {
          return Some(popped.error);
        }
        pc := popped.value;
      }
      return None;
    }

    /** PUSH pushes register x; POP pops into it. */
    method StackAccess(d: Decoded) returns (err: Option<VmError>)
      requires registers.Length == 4 && d.regX < 4 && d.regY < 4 && (d.opcode == IS.PUSH || d.opcode == IS.POP)
      modifies this, registers
      ensures Reached(err, Execute(old(Snapshot()), d))
    {
      if d.opcode == IS.PUSH {
        err := PushWord(registers[d.regX]);
        if err.Some? {
          return;
        }
      } else {
        var popped := PopWord();
        if popped.Failure? {
          return Some(popped.error);
        }
        SetRegister(d.regX, popped.value);
      }
      AdvancePc();
      return None;
    }

    /** Writes one register; nothing else changes. */
    method SetRegister(x: nat, value: nat)
      requires registers.Length == 4 && x < 4
      modifies registers
      ensures Snapshot() == old(Snapshot()).(registers := old(registers[..])[x := value])
    {
      registers[x] := value;
    }

    /** The end of an instruction that does not jump: the program counter
        moves on by four, and the machine stops once it reaches the end of
        the address space. */
    method AdvancePc()
      requires registers.Length == 4
      modifies this
      ensures Snapshot() == Advance(old(Snapshot()))
    {
      pc := pc + 4;
      if pc >= IS.MemorySize {
        running := false;
      }
    }

    /** Interrupt 0 stops the machine, 1 prints register 0, 2 to 4 leave this
        model's state alone, any other code is an error. */
    method HandleInterrupt(code: nat) returns (err: Option<VmError>)
      requires registers.Length == 4
      modifies this
      ensures Reached(err, Interrupt(old(Snapshot()), code))
    {
      if code == 0 {
        running := false;
      } else if code == 1 {
        output := output + [registers[0]];
      } else if code == 2 || code == 3 || code == 4 {
      } else {
        return Some(UnknownInterrupt(code));
      }
      return None;
    }

    /** Pushes the low 16 bits of a value: the stack pointer moves down by two
        and the value's high and low bytes go into the two cells above it. */
    method PushWord(value: int) returns (err: Option<VmError>)
      requires registers.Length == 4
      modifies this
      ensures Reached(err, Push(old(Snapshot()), value))
    {
      var v := Mask16(value);
      sp := sp - 2;
      match WriteCell(memory, sp + 1, (v / 256) % 256)
      case None =>
        return Some(StackOutOfRange(sp + 2));
      case Some(cells) =>
        memory := cells;
      match WriteCell(memory, sp + 2, v % 256)
      case None =>
        return Some(StackOutOfRange(sp + 2));
      case Some(cells) =>
        memory := cells;
      return None;
    }

    /** Pops a word: the two cells above the stack pointer, high byte first,
        and the stack pointer moves up by two. */
    method PopWord() returns (r: Result<nat, VmError>)
      requires registers.Length == 4
      modifies this
      ensures match Pop(old(Snapshot()))
              case Success(p) => r == Success(p.value) && Snapshot() == p.state
              case Failure(e) => r == Failure(e)
    {
      if !(0 <= sp + 1 && sp + 2 < |memory|) {
        return Failure(StackOutOfRange(sp));
      }
      var high := memory[sp + 1];
      var low := memory[sp + 2];
      sp := sp + 2;
      return Success(Mask16(Or(high * 256, low)));
    }
  }
}
