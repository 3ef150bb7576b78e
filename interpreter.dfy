/** The `CPU` aggregate as the program keeps it: two fixed-size arrays and a
    program counter, updated in place by `run` and `add`. Each method is
    proved to do what the state machine of module `Machine` does. */
module Interpreter {
  import opened Opcode
  import opened Machine

  class Cpu {
    var memory: array<Byte>
    var programCounter: nat
    var registers: array<Byte>

    /** The array sizes the Rust types fix: `[u8; 0x1000]` and `[u8; 16]`. */
    ghost predicate Valid()
      reads this
    {
      memory.Length == MemorySize && registers.Length == RegisterCount
    }

    /** The CPU viewed as a `Machine.State`. */
    ghost function Snapshot(): State
      reads this, memory, registers
    {
      State(memory[..], programCounter, registers[..])
    }

    /** A CPU with zeroed memory and registers and the program counter at 0. */
    constructor ()
      ensures Valid() && fresh(memory) && fresh(registers)
      ensures programCounter == 0
      ensures forall i :: 0 <= i < memory.Length ==> memory[i] == 0
      ensures forall i :: 0 <= i < registers.Length ==> registers[i] == 0
    {
      memory := new Byte[MemorySize](_ => 0);
      registers := new Byte[RegisterCount](_ => 0);
      programCounter := 0;
    }

    /** `read_opcode`: the byte at the program counter is the high byte of the
        opcode, the byte after it the low byte. Both indices must lie in
        memory; `Run` reports the panic otherwise. */
    function ReadOpcode(): (op: Word)
      reads this, memory
      requires Valid() && programCounter + 1 < memory.Length
      ensures op as int == memory[programCounter] as int * 256 + memory[programCounter + 1] as int
    {
      Pack(memory[programCounter], memory[programCounter + 1])
    }

    /** `add` (8xy4): V[x] := V[x] + V[y] wrapping, then V[0xF] := carry. */
    method Add(x: Byte, y: Byte)
      requires Valid() && IsNibble(x) && IsNibble(y)
      modifies registers
      ensures registers[..] == AddRegisters(old(registers[..]), x, y)
    {
      var arg1 := registers[x];
      var arg2 := registers[y];
      var (val, overflow) := OverflowingAdd(arg1, arg2);
      registers[x] := val;
      if overflow {
        registers[Flag] := 1;
      } else {
        registers[Flag] := 0;
      }
    }

    /** `run`: fetch, advance the program counter by 2, decode, dispatch, until
        the halt opcode returns or a panic ends the loop. The outcome and the
        final CPU are those of `Machine.Run`; memory is never written. */
    method Run() returns (outcome: Outcome)
      requires Valid()
      modifies this`programCounter, registers
      ensures Valid()
      ensures (outcome, Snapshot()) == Machine.Run(old(Snapshot()))
      ensures memory[..] == old(memory[..])
    {
      while true
        invariant Valid()
        invariant memory[..] == old(memory[..])
        invariant Machine.Run(Snapshot()) == Machine.Run(old(Snapshot()))
        decreases memory.Length - programCounter
      {
        ghost var before := Snapshot();
        if programCounter >= memory.Length {
          return Panicked(IndexOutOfBounds(programCounter));
        }
        if programCounter + 1 >= memory.Length {
          return Panicked(IndexOutOfBounds(programCounter + 1));
        }
        var opcode := ReadOpcode();
        programCounter := programCounter + 2;

        var n := Decode(opcode);
        if n == Nibbles(0, 0, 0, 0) {
          return Halted;
        } else if n.c == 0x8 && n.d == 0x4 {
          Add(n.x, n.y);
        } else {
          return Panicked(UnsupportedOpcode(opcode));
        }
        assert Step(before) == Continue(Snapshot());
      }
    }
  }
}
