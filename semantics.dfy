/** The CHIP-8 machine of src/chip8.rs as values: the state of `struct Chip8`, the memory
    layout of `Chip8::new`, and one call of `Chip8::cycle` as a function from the old state
    to the new one. The class in emulator.dfy is proved to compute exactly these functions.

    Inputs the source takes from SDL or `rand` are parameters here (`Inputs`). A Rust panic,
    and the `process::exit` of FX0A, end the run: the step then reports `Halted` and the
    state reached before the failing instruction changed anything. */
module Semantics {
  import opened Bytes
  import opened Instruction
  import opened Sprite

  const RAM_SIZE: nat := 4096
  const N_REGISTERS: nat := 16
  const STACK_SIZE: nat := 64
  const PROGRAM_LOC: nat := 0x200
  const FONT_LEN: nat := 80
  /** The 60 Hz timer period in nanoseconds. */
  const TIMER_PERIOD_NS: nat := 16_666_666
  /** VF, the flag register. */
  const FLAG: nibble := 0xF

  /** The glyphs 0..F, five rows of four pixels each. */
  const FONT: seq<u8> := [
    0xF0, 0x90, 0x90, 0x90, 0xF0, 0x20, 0x60, 0x20, 0x20, 0x70,
    0xF0, 0x10, 0xF0, 0x80, 0xF0, 0xF0, 0x10, 0xF0, 0x10, 0xF0,
    0x90, 0x90, 0xF0, 0x10, 0x10, 0xF0, 0x80, 0xF0, 0x10, 0xF0,
    0xF0, 0x80, 0xF0, 0x90, 0xF0, 0xF0, 0x10, 0x20, 0x40, 0x40,
    0xF0, 0x90, 0xF0, 0x90, 0xF0, 0xF0, 0x90, 0xF0, 0x10, 0xF0,
    0xF0, 0x90, 0xF0, 0x90, 0x90, 0xE0, 0x90, 0xE0, 0x90, 0xE0,
    0xF0, 0x80, 0x80, 0x80, 0xF0, 0xE0, 0x90, 0x90, 0x90, 0xE0,
    0xF0, 0x80, 0xF0, 0x80, 0xF0, 0xF0, 0x80, 0xF0, 0x80, 0x80
  ]

  /** The fields of `struct Chip8` (the debug switch is not modelled). */
  datatype Machine = Machine(
    ram: seq<u8>,
    registers: seq<u8>,
    index: u16,
    stack: seq<u16>,
    istack: nat,
    pc: nat,
    dt: u8,
    st: u8,
    display: seq<u8>,
    displayUpdateFlag: bool,
    displayClearFlag: bool,
    beepFlag: bool,
    instructionTimeNs: nat,
    lastTimerT: nat,
    lastInstructionT: nat)

  /** The fixed sizes of the arrays, the stack top inside the stack, and a 0/1 framebuffer. */
  predicate Valid(m: Machine) {
    && |m.ram| == RAM_SIZE
    && |m.registers| == N_REGISTERS
    && |m.stack| == STACK_SIZE
    && m.istack < STACK_SIZE
    && IsFrame(m.display)
    && Binary(m.display)
  }

  /** Why a run ended. The first three are Rust panics, the last is FX0A's `process::exit`. */
  datatype Halt = ProgramOutOfBounds | MemoryOutOfBounds | StackOverflow | Exit

  datatype Status = Running | Halted(reason: Halt)

  /** The outcome of one step: the status and the state it leaves. */
  datatype Step = Step(status: Status, machine: Machine)

  /** How the blocking key wait of FX0A ends: a mapped key, or Escape/CapsLock. */
  datatype KeyWait = Pressed(key: nibble) | Escape

  /** What one cycle observes of the world: the register values whose mapped key is down,
      the outcome of FX0A's wait, and the byte `rand::random` would return for CXNN. */
  datatype Inputs = Inputs(keysDown: set<u8>, keyWait: KeyWait, random: u8)

  function Zeros(n: nat): (s: seq<u8>)
    ensures |s| == n && forall i :: 0 <= i < n ==> s[i] == 0
  {
    seq(n, _ => 0)
  }

  /** The memory image of `Chip8::new`: the font at address 0, the ROM at 0x200, zeros elsewhere. */
  function Memory(rom: seq<u8>): (ram: seq<u8>)
    requires PROGRAM_LOC + |rom| <= RAM_SIZE
    ensures |ram| == RAM_SIZE
    ensures forall i :: 0 <= i < RAM_SIZE ==>
      ram[i] == if i < FONT_LEN then FONT[i] else if PROGRAM_LOC <= i < PROGRAM_LOC + |rom| then rom[i - PROGRAM_LOC] else 0
    ensures ram[..FONT_LEN] == FONT && ram[PROGRAM_LOC..PROGRAM_LOC + |rom|] == rom
  {
    var ram := FONT + Zeros(PROGRAM_LOC - FONT_LEN) + rom + Zeros(RAM_SIZE - PROGRAM_LOC - |rom|);
    assert ram[..FONT_LEN] == FONT;
    assert ram[PROGRAM_LOC..PROGRAM_LOC + |rom|] == rom;
    ram
  }

  /** `Chip8::new`: zeroed state with the memory image above. The source panics in
      `copy_from_slice` when the ROM does not fit, hence the precondition. */
  function Init(rom: seq<u8>, startT: nat, instructionTimeNs: nat): (m: Machine)
    requires PROGRAM_LOC + |rom| <= RAM_SIZE
    ensures Valid(m) && m.pc == PROGRAM_LOC && m.istack == 0 && m.index == 0
    ensures m.ram[..FONT_LEN] == FONT
    ensures m.ram[PROGRAM_LOC..PROGRAM_LOC + |rom|] == rom
    ensures forall i :: FONT_LEN <= i < PROGRAM_LOC || PROGRAM_LOC + |rom| <= i < RAM_SIZE ==> m.ram[i] == 0
    ensures forall i :: 0 <= i < N_REGISTERS ==> m.registers[i] == 0
    ensures forall i :: 0 <= i < STACK_SIZE ==> m.stack[i] == 0
    ensures forall i :: 0 <= i < DISPLAY_LEN ==> m.display[i] == 0
    ensures m.dt == 0 && m.st == 0 && !m.displayUpdateFlag && !m.displayClearFlag && !m.beepFlag
    ensures m.lastTimerT == startT && m.lastInstructionT == startT && m.instructionTimeNs == instructionTimeNs
  {
    Machine(Memory(rom), Zeros(N_REGISTERS), 0, seq(STACK_SIZE, _ => 0), 0, PROGRAM_LOC, 0, 0, Zeros(DISPLAY_LEN),
            false, false, false, instructionTimeNs, startT, startT)
  }

  /** The 60 Hz gate: when more than a period has passed since the last tick, each timer
      counts down by one unless it is already 0, and the beep flag follows the sound timer
      only when the sound timer was counted down. */
  function Tick(m: Machine, t: nat): Machine
    requires m.lastTimerT <= t
  {
    if t - m.lastTimerT > TIMER_PERIOD_NS then
      m.(dt := if m.dt > 0 then m.dt - 1 else m.dt,
         st := if m.st > 0 then m.st - 1 else m.st,
         beepFlag := if m.st > 0 then m.st - 1 > 0 else m.beepFlag,
         lastTimerT := t)
    else m
  }

  function Continue(m: Machine): Step {
    Step(Running, m)
  }

  /** Skip the next instruction when `cond` holds. */
  function SkipIf(m: Machine, cond: bool): Machine {
    if cond then m.(pc := m.pc + 2) else m
  }

  function SetRegister(m: Machine, x: nibble, v: u8): Machine
    requires |m.registers| == N_REGISTERS
  {
    m.(registers := m.registers[x := v])
  }

  /** The 0x0___ family, dispatched on the low nibble only: CLS for `n == 0`, RET for `n == 0xE`. */
  function System(m: Machine, n: nibble): Machine
    requires Valid(m)
  {
    if n == 0 then
      m.(display := Zeros(DISPLAY_LEN), displayClearFlag := true)
    else if n == 0xE then
      m.(pc := m.stack[m.istack], istack := if m.istack > 0 then m.istack - 1 else 0)
    else m
  }

  /** 2NNN: the stack top moves up first, then the return address (`pc as u16`) is stored
      there, so slot 0 is never written. Moving past the last slot panics. */
  function Call(m: Machine, nnn: u16): Step
    requires Valid(m)
  {
    if m.istack + 1 >= STACK_SIZE then Step(Halted(StackOverflow), m)
    else Continue(m.(istack := m.istack + 1, stack := m.stack[m.istack + 1 := Truncate16(m.pc)], pc := nnn))
  }

  /** The 0x8___ family. The flag register is written before `Vx` is recomputed in 8XY5..8XYE,
      so those read the new VF when x or y is 0xF; 8XY4 computes the sum first. 8XY7 wraps. */
  function Alu(r: seq<u8>, x: nibble, y: nibble, n: nibble): seq<u8>
    requires |r| == N_REGISTERS
  {
    if n == 0x0 then r[x := r[y]]
    else if n == 0x1 then r[x := Or8(r[x], r[y])]
    else if n == 0x2 then r[x := And8(r[x], r[y])]
    else if n == 0x3 then r[x := Xor8(r[x], r[y])]
    else if n == 0x4 then
      var sum := r[x] as int + r[y] as int;
      var r1 := r[FLAG := if sum > 255 then 1 else 0];
      r1[x := Truncate8(sum)]
    else if n == 0x5 then
      var r1 := r[FLAG := if r[x] > r[y] then 1 else 0];
      r1[x := Truncate8(r1[x] - r1[y])]
    else if n == 0x6 then
      var r1 := r[FLAG := And8(r[x], 0x01)];
      r1[x := r1[x] / 2]
    else if n == 0x7 then
      var r1 := r[FLAG := if r[y] > r[x] then 1 else 0];
      r1[x := Truncate8(r1[y] - r1[x])]
    else if n == 0xE then
      var r1 := r[FLAG := And8(r[x], 0x80)];
      r1[x := Truncate8(r1[x] * 2)]
    else r
  }

  /** The `rows` sprite bytes at address `i` (none when `rows` is 0, wherever `i` points). */
  function SpriteAt(ram: seq<u8>, i: nat, rows: nat): (s: seq<u8>)
    requires rows == 0 || i + rows <= |ram|
    ensures |s| == rows && forall k :: 0 <= k < rows ==> s[k] == ram[i + k]
  {
    if rows == 0 then [] else ram[i..i + rows]
  }

  /** DXYN: VF is cleared before the coordinates are read; the rows visited are read from
      memory at I, I + 1, ...; reading past the end of memory panics before the first pixel. */
  function DrawSprite(m: Machine, x: nibble, y: nibble, n: nibble): Step
    requires Valid(m)
  {
    var r := m.registers[FLAG := 0];
    var xpos, ypos := r[x] % DISPLAY_WIDTH, r[y] % DISPLAY_HEIGHT;
    var rows := Rows(ypos, n);
    if rows > 0 && m.index + rows > RAM_SIZE then Step(Halted(MemoryOutOfBounds), m)
    else
      var c := Draw(m.display, SpriteAt(m.ram, m.index, rows), xpos, ypos);
      Continue(m.(registers := r[FLAG := if c.collision then 1 else 0], display := c.cells, displayUpdateFlag := true))
  }

  /** EX9E / EXA1: skip when the key named by `Vx` is down / up. */
  function Keys(m: Machine, x: nibble, nn: u8, keysDown: set<u8>): Machine
    requires Valid(m)
  {
    if nn == 0x9E then SkipIf(m, m.registers[x] in keysDown)
    else if nn == 0xA1 then SkipIf(m, m.registers[x] !in keysDown)
    else m
  }

  /** The 0xF___ family. FX33, FX55 and FX65 panic when they reach past the end of memory. */
  function Misc(m: Machine, x: nibble, nn: u8, io: Inputs): Step
    requires Valid(m)
  {
    var vx := m.registers[x];
    if nn == 0x07 then Continue(SetRegister(m, x, m.dt))
    else if nn == 0x0A then
      match io.keyWait
      case Pressed(k) => Continue(SetRegister(m, x, k))
      case Escape => Step(Halted(Exit), m)
    else if nn == 0x15 then Continue(m.(dt := vx))
    else if nn == 0x18 then Continue(m.(st := vx))
    else if nn == 0x1E then Continue(m.(index := Truncate16(m.index as int + vx)))
    else if nn == 0x29 then Continue(m.(index := vx as int * 5))
    else if nn == 0x33 then StoreBcd(m, x)
    else if nn == 0x55 then StoreRegisters(m, x)
    else if nn == 0x65 then LoadRegisters(m, x)
    else Continue(m)
  }

  /** FX33: the decimal digits of `Vx` at I, I + 1, I + 2; a write past the end of memory panics. */
  function StoreBcd(m: Machine, x: nibble): Step
    requires Valid(m)
  {
    if m.index + 2 >= RAM_SIZE then Step(Halted(MemoryOutOfBounds), m)
    else
      var d := Bcd(m.registers[x]);
      Continue(m.(ram := m.ram[m.index := d.hundreds][m.index + 1 := d.tens][m.index + 2 := d.ones]))
  }

  /** FX55: V0..Vx to memory from I on; a write past the end of memory panics. */
  function StoreRegisters(m: Machine, x: nibble): Step
    requires Valid(m)
  {
    if m.index + x >= RAM_SIZE then Step(Halted(MemoryOutOfBounds), m)
    else Continue(m.(ram := m.ram[..m.index] + m.registers[..x + 1] + m.ram[m.index + x + 1..]))
  }

  /** FX65: memory from I on into V0..Vx; a read past the end of memory panics. */
  function LoadRegisters(m: Machine, x: nibble): Step
    requires Valid(m)
  {
    if m.index + x >= RAM_SIZE then Step(Halted(MemoryOutOfBounds), m)
    else Continue(m.(registers := m.ram[m.index..m.index + x + 1] + m.registers[x + 1..]))
  }

  /** One decoded instruction on a state whose `pc` already points past it. Families and
      sub-codes that the dispatch does not name leave the state as it is. */
  function Execute(m: Machine, f: Fields, io: Inputs): Step
    requires Valid(m)
  {
    if f.code < 0x8000 then ExecuteFlow(m, f) else ExecuteData(m, f, io)
  }

  /** The families 0x0___ to 0x7___: system calls, jumps, skips and immediate loads. */
  function ExecuteFlow(m: Machine, f: Fields): Step
    requires Valid(m)
  {
    var vx, vy := m.registers[f.x], m.registers[f.y];
    if f.code == 0x0000 then Continue(System(m, f.n))
    else if f.code == 0x1000 then Continue(m.(pc := f.nnn))
    else if f.code == 0x2000 then Call(m, f.nnn)
    else if f.code == 0x3000 then Continue(SkipIf(m, vx == f.nn))
    else if f.code == 0x4000 then Continue(SkipIf(m, vx != f.nn))
    else if f.code == 0x5000 then Continue(SkipIf(m, vx == vy))
    else if f.code == 0x6000 then Continue(SetRegister(m, f.x, f.nn))
    else if f.code == 0x7000 then Continue(SetRegister(m, f.x, Truncate8(vx + f.nn)))
    else Continue(m)
  }

  /** The families 0x8___ to 0xF___: arithmetic, memory, random, drawing, keys and timers. */
  function ExecuteData(m: Machine, f: Fields, io: Inputs): Step
    requires Valid(m)
  {
    var vx, vy := m.registers[f.x], m.registers[f.y];
    if f.code == 0x8000 then Continue(m.(registers := Alu(m.registers, f.x, f.y, f.n)))
    else if f.code == 0x9000 then Continue(SkipIf(m, vx != vy))
    else if f.code == 0xA000 then Continue(m.(index := f.nnn))
    else if f.code == 0xB000 then Continue(m.(pc := f.nnn + m.registers[0]))
    else if f.code == 0xC000 then Continue(SetRegister(m, f.x, And8(f.nn, io.random)))
    else if f.code == 0xD000 then DrawSprite(m, f.x, f.y, f.n)
    else if f.code == 0xE000 then Continue(Keys(m, f.x, f.nn, io.keysDown))
    else if f.code == 0xF000 then Misc(m, f.x, f.nn, io)
    else Continue(m)
  }

  /** Whether the instruction gate is open at time `t`. */
  predicate InstructionDue(m: Machine, t: nat)
    requires m.lastInstructionT <= t
  {
    t - m.lastInstructionT > m.instructionTimeNs
  }

  /** `Chip8::cycle(t, ...)`: clear the display flags, run the timer gate, then, when the
      instruction gate is open, fetch the big-endian word at `pc`, advance `pc` by 2, and
      execute it. A `pc` at or past the end of memory is the explicit panic; `pc` on the last
      byte makes the fetch of the second byte panic. The clock is monotonic: `t` is never
      earlier than the last recorded times (the `u128` subtractions would underflow). */
  function Cycle(m: Machine, t: nat, io: Inputs): Step
    requires Valid(m) && m.lastTimerT <= t && m.lastInstructionT <= t
  {
    var m1 := Tick(m.(displayUpdateFlag := false, displayClearFlag := false), t);
    if !InstructionDue(m1, t) then Continue(m1) else FetchExecute(m1, t, io)
  }

  /** The open instruction gate: fetch, advance `pc`, execute, and record the time. */
  function FetchExecute(m: Machine, t: nat, io: Inputs): Step
    requires Valid(m)
  {
    if m.pc >= RAM_SIZE then Step(Halted(ProgramOutOfBounds), m)
    else if m.pc + 1 >= RAM_SIZE then Step(Halted(MemoryOutOfBounds), m)
    else
      var w := Word(m.ram[m.pc], m.ram[m.pc + 1]);
      var s := Execute(m.(pc := m.pc + 2), Decode(w), io);
      if s.status.Running? then Continue(s.machine.(lastInstructionT := t)) else s
  }
}
