# CHIP-8 execution core in Dafny

This project models the execution core of a small CHIP-8-style interpreter
written in Rust (`src/main.rs`). A `CPU` holds 0x1000 bytes of memory, a
program counter and sixteen 8-bit registers V0..VF, where VF is the flag
register. `read_opcode` packs the two bytes at the program counter into a
big-endian 16-bit opcode. `run` loops: fetch, advance the program counter by
2, split the opcode into four nibbles (c, x, y, d), and dispatch on them.
0x0000 returns, 8xy4 calls `add`, and any other opcode panics through
`todo!`. `add` stores V[x] + V[y] wrapped to 8 bits into V[x] and then sets
VF to the carry. `main` runs a three-instruction program and asserts that
V0 == 61.

Modules, one per concern of the source file:

- `Opcode` (opcode.dfy) is the pure part. It has the byte and word types,
  big-endian packing, nibble decoding and its inverse, and the dispatcher's
  classification of a nibble tuple.
- `Machine` (machine.dfy) is the loop as a pure state machine: `Step` is one
  iteration and `Run` is the whole run. It also holds the lemmas about runs:
  how a run can end, what halting does, what an unsupported opcode does,
  what 8xy4 does, and the flag invariant.
- `Interpreter` (interpreter.dfy) is the `CPU` as a class with
  `memory: array<Byte>`, `registers: array<Byte>` and `programCounter`.
  `Run` is a `while` loop and `Add` writes the register array in place.
  Both are proved equal to their `Machine` counterparts.
- `Scenario` (scenario.dfy) is `main` as a verified method, plus the lemma
  that computes its run.

The program panics in two ways, and the model gives both as values of
`Outcome`. The `todo!` arm becomes `Panicked(UnsupportedOpcode(op))`, raised
after the program counter has moved past the opcode. A fetch past the end of
memory becomes `Panicked(IndexOutOfBounds(i))`. Here `i` is the first index
that falls outside memory (`pc`, or else `pc + 1`), and the state is left
unchanged.

## Model

| member | source | states |
|---|---|---|
| `Opcode.Pack` | src/main.rs:29-35 | the first byte becomes the high byte of the opcode and the second byte the low byte |
| `Opcode.PackIsShiftOr` | src/main.rs:31-34 | on 16-bit words, the first byte shifted left by 8 and or-ed with the second byte equals `Pack` of the two bytes |
| `Opcode.Decode` | src/main.rs:42-45 | each of c, x, y, d is below 16, and c*4096 + x*256 + y*16 + d equals the opcode |
| `Opcode.DecodeEncode` | src/main.rs:8-20 | decoding takes apart exactly the nibbles placed by value into a word |
| `Opcode.EncodeDecode` | src/main.rs:8-20 | putting the decoded nibbles back by place value gives the opcode back |
| `Opcode.DecodePack` | src/main.rs:2-12 | c and x are the high and low nibbles of the first memory byte; y and d are those of the second |
| `Opcode.DecodeExamples` | src/main.rs:1-20 | 0x73EE decodes to (7, 3, E, E) and 0x8014 to (8, 0, 1, 4) |
| `Opcode.Classify` | src/main.rs:47-51 | the dispatcher's match, arms in order: halt exactly on the nibble tuple (0, 0, 0, 0), add exactly on class 8 with sub-opcode 4, taking its register operands from x and y, which are valid register indices; everything else is unsupported. `Opcode.ClassifyWord` states the same on the raw opcode |
| `Opcode.ClassifyWord` | src/main.rs:47-51 | the nibble-tuple match halts exactly on word 0x0000, adds exactly on words 0x8xy4 (taking x and y from bits 11-8 and 7-4), and treats every other word as unsupported |
| `Machine.OverflowingAdd` | src/main.rs:59 | the sum wrapped mod 256, with the overflow flag true exactly when the true sum exceeds 255 |
| `Machine.AddRegisters` | src/main.rs:55-67 | if x is not 0xF, V[x] becomes (a + b) mod 256; VF becomes 1 if a + b > 255 and 0 otherwise, which overwrites the sum when x is 0xF; no other register changes |
| `Machine.Step` | src/main.rs:38-51 | a fetch with pc + 1 outside memory panics with index pc (if pc is outside memory) or else pc + 1, and changes nothing; any other step moves pc on by exactly 2; a step that goes round again leaves pc at most 0x1000, one past the last byte, so the next fetch may still panic; memory never changes; only a continuing (8xy4) step changes registers |
| `Machine.Run` | src/main.rs:37-53 | the run terminates; memory is unchanged; the final pc is at or after the start, by an even number of bytes |
| `Machine.WordAt` | src/main.rs:29-35 | the state-level form of `Interpreter.Cpu.ReadOpcode`, used in the run lemmas: the opcode at address p is memory[p] * 256 + memory[p + 1], with both bytes in memory |
| `Machine.RunEndsBy` | src/main.rs:37-53 | a run ends in one of three ways. After a halt, the last word fetched is 0x0000. After an unsupported opcode, the panic reports the last word fetched, which is neither 0x0000 nor 8xy4. After an index panic, pc + 1 lies outside memory and the index reported is pc if pc is outside memory, else pc + 1 |
| `Machine.HaltStops` | src/main.rs:48 | opcode 0x0000 ends the run at once; registers and memory are unchanged; only pc has moved past it |
| `Machine.UnsupportedPanics` | src/main.rs:50 | any opcode other than 0x0000 and 8xy4 ends the run with a panic carrying that opcode; it is not skipped |
| `Machine.AddContinues` | src/main.rs:49 | opcode 8xy4 performs the addition on V[x] and V[y] and the loop continues at pc + 2 with memory unchanged |
| `Machine.RunKeepsFlagBit` | src/main.rs:62-66 | a run whose first step is an addition ends with VF holding 0 or 1 |
| `Machine.RunFlagOrUntouched` | src/main.rs:37-67 | every run, from any start, either leaves all registers as they were or ends with VF holding 0 or 1 |
| `Interpreter.Cpu.constructor` | src/main.rs:72-76 | a CPU with zeroed memory and registers and the program counter at 0 |
| `Interpreter.Cpu.ReadOpcode` | src/main.rs:29-35 | the opcode equals memory[pc] * 256 + memory[pc + 1]; both indices must lie in memory |
| `Interpreter.Cpu.Add` | src/main.rs:55-67 | the register array after the in-place update is `AddRegisters` of the one before; only the register array is written |
| `Interpreter.Cpu.Run` | src/main.rs:37-53 | the loop's outcome and final CPU are those of `Machine.Run` on the initial CPU; memory is never written |
| `Scenario.Initial` | src/main.rs:72-86 | the configured CPU has the fixed array sizes |
| `Scenario.InitialRunHalts` | src/main.rs:72-89 | the run of `main`'s program halts at pc 8 with V0 == 61 and VF == 0 |
| `Scenario.Demo` | src/main.rs:71-91 | `main` as a method: after `run`, the outcome is a halt, V0 == 61 and VF == 0 |

## Left out

- The `println!` in `main` (src/main.rs:90) is console output. Only the asserted final state is kept.
- The panic message of `todo!` (src/main.rs:50) is not modelled. The panic is the value `UnsupportedOpcode(opcode)` rather than a formatted string.
- Unwinding after a panic is not modelled. The model still returns the CPU state at the panic, which the Rust program never inspects.
- Opcode.Decode: the masks and shifts that extract the nibbles (`&`, `>>`) are written as division and remainder by powers of two rather than on 16-bit bit-vectors. These agree for the non-negative 16-bit values involved. The model uses unbounded integers limited to 0..255 and 0..65535. The packing `<<` and `|` are related to bit-vectors by `Opcode.PackIsShiftOr`.
- `usize` overflow of `program_counter += 2` is not modelled, because it cannot happen. The increment runs only after both fetch indices have passed the bounds check of the 0x1000-byte memory, so the counter stays at most 0x1000.
- The program counter is a `nat`. A caller cannot make it negative, just as with `usize`.
- The call stack, stack pointer and any instruction besides 0x0000 and 8xy4 (jumps, calls, returns, skips, loads, logic operations, clear screen) are left out because the code does not have them.
- There are no display, keyboard, timers, sound or program loading in the code, so none are modelled.
