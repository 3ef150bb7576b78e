/** The interpreter as a pure state machine: one fetch-decode-execute step and
    the run to completion. The class `Interpreter.Cpu` is proved against these
    definitions, and the properties of a run are proved about them. */
module Machine {
  import opened Opcode

  /** 0x1000 bytes of memory, 16 registers, V[0xF] doubling as the flag. */
  const MemorySize: nat := 0x1000
  const RegisterCount: nat := 16
  const Flag: nat := 0xF

  /** A snapshot of the CPU: memory, program counter, registers. */
  datatype State = State(memory: seq<Byte>, pc: nat, registers: seq<Byte>)

  /** The fixed sizes of the two arrays. */
  predicate Valid(s: State)
  {
    |s.memory| == MemorySize && |s.registers| == RegisterCount
  }

  /** The two ways a run panics: the `todo!` arm, carrying the opcode, and an
      index past the end of memory, carrying the index. */
  datatype Fault = UnsupportedOpcode(opcode: Word) | IndexOutOfBounds(index: nat)

  /** How `run` ends: it returns after the halt opcode, or it panics. */
  datatype Outcome = Halted | Panicked(fault: Fault)

  /** The result of a single step: the loop goes round again, or it is left
      with an outcome. */
  datatype StepResult = Continue(state: State) | Stop(outcome: Outcome, state: State)

  /** `u8::overflowing_add`: the sum wrapped to eight bits, and whether it
      wrapped. */
  function OverflowingAdd(a: Byte, b: Byte): (r: (Byte, bool))
    ensures r.0 as int == (a as int + b as int) % 256
    ensures r.1 <==> a as int + b as int > 255
  {
    var sum := a as int + b as int;
    if sum < 256 then (sum as Byte, false) else ((sum - 256) as Byte, true)
  }

  /** The register file after instruction 8xy4: V[x] gets the wrapped sum of
      V[x] and V[y], then V[0xF] gets the carry, so that when x is 0xF the
      carry overwrites the sum. */
  function AddRegisters(regs: seq<Byte>, x: Byte, y: Byte): (r: seq<Byte>)
    requires |regs| == RegisterCount && IsNibble(x) && IsNibble(y)
    ensures |r| == RegisterCount
    ensures x as int != Flag ==> r[x] as int == (regs[x] as int + regs[y] as int) % 256
    ensures r[Flag] == if regs[x] as int + regs[y] as int > 255 then 1 else 0
    ensures forall i :: 0 <= i < RegisterCount && i != x as int && i != Flag ==> r[i] == regs[i]
  {
    var (val, overflow) := OverflowingAdd(regs[x], regs[y]);
    regs[x as int := val][Flag := if overflow then 1 else 0]
  }

  /** One iteration of the loop in `run`: fetch the big-endian opcode at the
      program counter (panicking on an index past the end of memory), advance
      the program counter by 2, decode, and dispatch. */
  function Step(s: State): (r: StepResult)
    requires Valid(s)
    ensures Valid(r.state) && r.state.memory == s.memory
    // a fetch past the end of memory panics with the first bad index, before any change
    ensures (r.Stop? && r.outcome.Panicked? && r.outcome.fault.IndexOutOfBounds?) <==> s.pc + 1 >= |s.memory|
    ensures s.pc + 1 >= |s.memory| ==>
              r.state == s && r.outcome.fault.index == if s.pc >= |s.memory| then s.pc else s.pc + 1
    // otherwise the program counter has moved on by exactly one instruction
    ensures s.pc + 1 < |s.memory| ==> r.state.pc == s.pc + 2
    ensures r.Continue? ==> r.state.pc == s.pc + 2 <= |s.memory|
    // only an addition touches the registers
    ensures r.Stop? ==> r.state.registers == s.registers
  {
    if s.pc >= |s.memory| then Stop(Panicked(IndexOutOfBounds(s.pc)), s)
    else if s.pc + 1 >= |s.memory| then Stop(Panicked(IndexOutOfBounds(s.pc + 1)), s)
    else
      var opcode := Pack(s.memory[s.pc], s.memory[s.pc + 1]);
      var advanced := s.(pc := s.pc + 2);
      match Classify(Decode(opcode))
      case Halt => Stop(Halted, advanced)
      case Add(x, y) => Continue(advanced.(registers := AddRegisters(s.registers, x, y)))
      case Unsupported => Stop(Panicked(UnsupportedOpcode(opcode)), advanced)
  }

  /** `run`: steps until the loop is left. It terminates because every step
      that goes round again moves the program counter two bytes further
      towards the end of memory. */
  function Run(s: State): (r: (Outcome, State))
    requires Valid(s)
    ensures Valid(r.1)
    ensures r.1.memory == s.memory
    ensures s.pc <= r.1.pc && (r.1.pc - s.pc) % 2 == 0
    decreases |s.memory| - s.pc
  {
    match Step(s)
    case Continue(next) => Run(next)
    case Stop(outcome, final) => (outcome, final)
  }

  /** The opcode stored at address `p`, when both of its bytes are in memory. */
  function WordAt(memory: seq<Byte>, p: nat): (w: Word)
    requires p + 1 < |memory|
    ensures w as int == memory[p] as int * 256 + memory[p + 1] as int
  {
    Pack(memory[p], memory[p + 1])
  }

  /** What the final state of a run says about how the run ended: after a
      halt, the word just before the program counter is 0x0000; after the
      `todo!` panic, it is the reported opcode, which is neither 0x0000 nor
      of the form 8xy4; after an index panic, the program counter points at
      no complete instruction and the reported index is the first one past
      the end: the program counter itself, or else the byte after it. */
  predicate EndsBy(memory: seq<Byte>, outcome: Outcome, final: State)
  {
    match outcome
    case Halted =>
      2 <= final.pc <= |memory| && WordAt(memory, final.pc - 2) == 0
    case Panicked(UnsupportedOpcode(op)) =>
      2 <= final.pc <= |memory| && WordAt(memory, final.pc - 2) == op &&
      op != 0 && !(op / 0x1000 == 0x8 && op % 0x10 == 0x4)
    case Panicked(IndexOutOfBounds(i)) =>
      final.pc + 1 >= |memory| && i == if final.pc >= |memory| then final.pc else final.pc + 1
  }

  /** Every run ends in one of the three ways, for the reason `EndsBy` gives. */
  lemma {:induction false} RunEndsBy(s: State)
    requires Valid(s)
    ensures EndsBy(s.memory, Run(s).0, Run(s).1)
    decreases |s.memory| - s.pc
  {
    match Step(s)
    case Continue(next) =>
      RunEndsBy(next);
    case Stop(outcome, final) =>
      if s.pc + 1 < |s.memory| {
        ClassifyWord(WordAt(s.memory, s.pc));
      }
  }

  /** The opcode 0x0000 ends the run at once: only the program counter has
      moved, past the halt instruction. */
  lemma HaltStops(s: State)
    requires Valid(s) && s.pc + 1 < |s.memory| && WordAt(s.memory, s.pc) == 0
    ensures Run(s) == (Halted, s.(pc := s.pc + 2))
  {
    ClassifyWord(0);
  }

  /** An opcode that is neither 0x0000 nor 8xy4 ends the run with a panic that
      reports it; it is not skipped. */
  lemma UnsupportedPanics(s: State)
    requires Valid(s) && s.pc + 1 < |s.memory|
    requires WordAt(s.memory, s.pc) != 0
    requires !(WordAt(s.memory, s.pc) / 0x1000 == 0x8 && WordAt(s.memory, s.pc) % 0x10 == 0x4)
    ensures Run(s) == (Panicked(UnsupportedOpcode(WordAt(s.memory, s.pc))), s.(pc := s.pc + 2))
  {
    ClassifyWord(WordAt(s.memory, s.pc));
  }

  /** An opcode 8xy4 adds V[y] into V[x], sets the flag, moves on by one
      instruction and changes nothing else. */
  lemma AddContinues(s: State)
    requires Valid(s) && s.pc + 1 < |s.memory|
    requires WordAt(s.memory, s.pc) / 0x1000 == 0x8 && WordAt(s.memory, s.pc) % 0x10 == 0x4
    ensures var op := WordAt(s.memory, s.pc) as int;
            var x, y := (op / 256 % 16) as Byte, (op / 16 % 16) as Byte;
            Step(s) == Continue(State(s.memory, s.pc + 2, AddRegisters(s.registers, x, y)))
  {
    ClassifyWord(WordAt(s.memory, s.pc));
  }

  /** Once a run has carried out an addition, the flag register holds 0 or 1
      to the end of the run. */
  lemma {:induction false} RunKeepsFlagBit(s: State)
    requires Valid(s) && Step(s).Continue?
    ensures Run(s).1.registers[Flag] <= 1
    decreases |s.memory| - s.pc
  {
    var next := Step(s).state;
    if Step(next).Continue? {
      RunKeepsFlagBit(next);
    }
  }

  /** Every run either leaves all registers as they were (it never carried
      out an addition) or ends with the flag register holding 0 or 1. */
  lemma {:induction false} RunFlagOrUntouched(s: State)
    requires Valid(s)
    ensures Run(s).1.registers == s.registers || Run(s).1.registers[Flag] <= 1
  {
    if Step(s).Continue? {
      RunKeepsFlagBit(s);
    }
  }
}
