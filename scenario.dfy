/** The program's `main`: V0 = 5, V1 = 10, V2 = 26, V3 = 20, and three
    instructions ADD V0,V1; ADD V0,V2; ADD V0,V3 at address 0, followed by
    zeroed memory, so that the fourth fetch reads the halt opcode. */
module Scenario {
  import opened Opcode
  import opened Machine
  import opened Interpreter

  const Program: seq<Byte> := [0x80, 0x14, 0x80, 0x24, 0x80, 0x34]

  /** The CPU as `main` sets it up before calling `run`. */
  function Initial(): (s: State)
    ensures Valid(s)
  {
    State(seq(MemorySize, i => if 0 <= i < |Program| then Program[i] else 0),
          0,
          seq(RegisterCount, i => if i == 0 then 5 else if i == 1 then 10
                                  else if i == 2 then 26 else if i == 3 then 20 else 0))
  }

  /** The run halts at the fourth instruction with V0 = 5 + 10 + 26 + 20 = 61
      and no carry from the last addition. */
  lemma InitialRunHalts()
    ensures Run(Initial()).0 == Halted
    ensures Run(Initial()).1.registers[0] == 61
    ensures Run(Initial()).1.registers[Flag] == 0
    ensures Run(Initial()).1.pc == 8
  {
    var s0 := Initial();
    var s1 := State(s0.memory, 2, s0.registers[0 := 15]);
    var s2 := State(s0.memory, 4, s1.registers[0 := 41]);
    var s3 := State(s0.memory, 6, s2.registers[0 := 61]);
    DecodeExamples();
    assert WordAt(s0.memory, 0) == 0x8014;
    assert WordAt(s0.memory, 2) == 0x8024;
    assert WordAt(s0.memory, 4) == 0x8034;
    AddContinues(s0);
    assert Step(s0) == Continue(s1);
    AddContinues(s1);
    assert Step(s1) == Continue(s2);
    AddContinues(s2);
    assert Step(s2) == Continue(s3);
    HaltStops(s3);
  }

  /** `main`, without its console output: the asserted final value of V0,
      together with the flag and the way `run` ended. */
  method Demo() returns (outcome: Outcome, v0: Byte, vf: Byte)
    ensures outcome == Halted && v0 == 61 && vf == 0
  {
    var cpu := new Cpu();
    cpu.registers[0] := 5;
    cpu.registers[1] := 10;
    cpu.registers[2] := 26;
    cpu.registers[3] := 20;

    var mem := cpu.memory;
    mem[0] := 0x80; mem[1] := 0x14;
    mem[2] := 0x80; mem[3] := 0x24;
    mem[4] := 0x80; mem[5] := 0x34;

    assert cpu.Snapshot() == Initial();
    outcome := cpu.Run();
    InitialRunHalts();
    v0 := cpu.registers[0];
    vf := cpu.registers[Flag];
  }
}
