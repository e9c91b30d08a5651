/** `struct Chip8` of src/chip8.rs as a class whose methods update its fields and arrays in
    place, statement by statement as the source does. Every method is proved to agree with
    the functions of module Semantics on the abstract state `Abs()`. */
module Emulator {
  import opened Bytes
  import opened Instruction
  import opened Sprite
  import S = Semantics

  class Chip8 {
    const ram: array<u8>
    const registers: array<u8>
    var index: u16
    const stack: array<u16>
    var istack: nat
    var pc: nat
    var dt: u8
    var st: u8
    const display: array<u8>
    var displayUpdateFlag: bool
    var displayClearFlag: bool
    var beepFlag: bool
    const instructionTimeNs: nat
    var lastTimerT: nat
    var lastInstructionT: nat

    /** The state as a value. */
    ghost function Abs(): S.Machine
      reads this, ram, registers, stack, display
    {
      S.Machine(ram[..], registers[..], index, stack[..], istack, pc, dt, st, display[..],
                displayUpdateFlag, displayClearFlag, beepFlag, instructionTimeNs, lastTimerT, lastInstructionT)
    }

    ghost predicate Valid()
      reads this, ram, registers, stack, display
    {
      ram != registers && ram != display && registers != display && S.Valid(Abs())
    }

    /** The method finished with `status` as the step `s` does; when it keeps running, the
        state is the one `s` leaves. (After a halt the process is gone and the state unobserved.) */
    ghost predicate Agrees(status: S.Status, s: S.Step)
      reads this, ram, registers, stack, display
    {
      status == s.status && (status.Running? ==> Abs() == s.machine)
    }

    /** `Chip8::new`. */
    constructor (rom: seq<u8>, startT: nat, instructionTimeNs: nat)
      requires S.PROGRAM_LOC + |rom| <= S.RAM_SIZE
      ensures Valid() && fresh(ram) && fresh(registers) && fresh(stack) && fresh(display)
      ensures Abs() == S.Init(rom, startT, instructionTimeNs)
    {
      var mem := NewMemory(rom);
      ram := mem;
      registers := new u8[S.N_REGISTERS](_ => 0);
      index := 0;
      stack := new u16[S.STACK_SIZE](_ => 0);
      istack := 0;
      pc := S.PROGRAM_LOC;
      dt, st := 0, 0;
      display := new u8[DISPLAY_LEN](_ => 0);
      displayUpdateFlag, displayClearFlag, beepFlag := false, false, false;
      this.instructionTimeNs := instructionTimeNs;
      lastTimerT, lastInstructionT := startT, startT;
      new;
      assert registers[..] == S.Zeros(S.N_REGISTERS);
      assert display[..] == S.Zeros(DISPLAY_LEN);
    }

    /** The memory of `Chip8::new`: a zeroed array, the font copied to 0, the ROM to 0x200. */
    static method NewMemory(rom: seq<u8>) returns (mem: array<u8>)
      requires S.PROGRAM_LOC + |rom| <= S.RAM_SIZE
      ensures fresh(mem) && mem[..] == S.Memory(rom)
    {
      mem := new u8[S.RAM_SIZE](_ => 0);
      for i := 0 to S.FONT_LEN
        invariant forall k :: 0 <= k < S.RAM_SIZE ==> mem[k] == if k < i then S.FONT[k] else 0
      {
        mem[i] := S.FONT[i];
      }
      for i := 0 to |rom|
        invariant forall k :: 0 <= k < S.RAM_SIZE ==>
          mem[k] == if k < S.FONT_LEN then S.FONT[k] else if S.PROGRAM_LOC <= k < S.PROGRAM_LOC + i then rom[k - S.PROGRAM_LOC] else 0
      {
        mem[S.PROGRAM_LOC + i] := rom[i];
      }
      assert mem[..] == S.Memory(rom);
    }

    /** One call of `cycle(t, ...)`; the key state, the FX0A key and the random byte are `io`. */
    method Cycle(t: nat, io: S.Inputs) returns (status: S.Status)
      requires Valid() && lastTimerT <= t && lastInstructionT <= t
      modifies this, ram, registers, stack, display
      ensures Valid() && Agrees(status, S.Cycle(old(Abs()), t, io))
    {
      displayUpdateFlag := false;
      displayClearFlag := false;
      TickTimers(t);
      ghost var m1 := Abs();
      assert m1 == S.Tick(old(Abs()).(displayUpdateFlag := false, displayClearFlag := false), t);
      status := S.Running;
      if t - lastInstructionT > instructionTimeNs {
        status := FetchExecute(t, io);
      }
    }

    /** The body of the instruction gate: fetch, advance `pc`, execute, record `t`. */
    method FetchExecute(t: nat, io: S.Inputs) returns (status: S.Status)
      requires Valid()
      modifies this, ram, registers, stack, display
      ensures Valid() && Agrees(status, S.FetchExecute(old(Abs()), t, io))
    {
      if pc >= S.RAM_SIZE {
        return S.Halted(S.ProgramOutOfBounds);
      }
      if pc + 1 >= S.RAM_SIZE {
        return S.Halted(S.MemoryOutOfBounds);
      }
      ghost var m0 := Abs();
      var instr := Word(ram[pc], ram[pc + 1]);
      assert instr == Word(m0.ram[m0.pc], m0.ram[m0.pc + 1]);
      pc := pc + 2;
      assert Abs() == m0.(pc := m0.pc + 2);
      status := Execute(Decode(instr), io);
      if status.Running? {
        lastInstructionT := t;
      }
    }

    method TickTimers(t: nat)
      requires Valid() && lastTimerT <= t
      modifies this
      ensures Valid() && Abs() == S.Tick(old(Abs()), t)
    {
      if t - lastTimerT > S.TIMER_PERIOD_NS {
        if dt > 0 {
          dt := dt - 1;
        }
        if st > 0 {
          st := st - 1;
          beepFlag := st > 0;
        }
        lastTimerT := t;
      }
    }

    /** The `match code` of `cycle`, on a state whose `pc` already points past the instruction.
        The arms are split in two halves only to keep each proof small. */
    method Execute(f: Fields, io: S.Inputs) returns (status: S.Status)
      requires Valid()
      modifies this, ram, registers, stack, display
      ensures Valid() && Agrees(status, S.Execute(old(Abs()), f, io))
    {
      if f.code < 0x8000 {
        status := ExecuteFlow(f);
      } else {
        status := ExecuteData(f, io);
      }
    }

    /** The arms 0x0___ to 0x7___: system calls, jumps, skips and immediate loads. */
    method ExecuteFlow(f: Fields) returns (status: S.Status)
      requires Valid()
      modifies this, registers, stack, display
      ensures Valid() && Agrees(status, S.ExecuteFlow(old(Abs()), f))
    {
      status := S.Running;
      var x, y := f.x, f.y;
      match f.code {
        case 0x0000 => System(f.n);
        case 0x1000 => pc := f.nnn;
        case 0x2000 => status := Call(f.nnn);
        case 0x3000 =>
          if registers[x] == f.nn {
            pc := pc + 2;
          }
        case 0x4000 =>
          if registers[x] != f.nn {
            pc := pc + 2;
          }
        case 0x5000 =>
          if registers[x] == registers[y] {
            pc := pc + 2;
          }
        case 0x6000 => registers[x] := f.nn;
        case 0x7000 => registers[x] := Truncate8(registers[x] as int + f.nn);
        case _ =>
      }
    }

    /** The arms 0x8___ to 0xF___: arithmetic, memory, random, drawing, keys and timers. */
    method ExecuteData(f: Fields, io: S.Inputs) returns (status: S.Status)
      requires Valid()
      modifies this, ram, registers, display
      ensures Valid() && Agrees(status, S.ExecuteData(old(Abs()), f, io))
    {
      status := S.Running;
      var x, y := f.x, f.y;
      match f.code {
        case 0x8000 => Arithmetic(x, y, f.n);
        case 0x9000 =>
          if registers[x] != registers[y] {
            pc := pc + 2;
          }
        case 0xA000 => index := f.nnn;
        case 0xB000 => pc := f.nnn + registers[0];
        case 0xC000 => registers[x] := And8(f.nn, io.random);
        case 0xD000 => status := DrawSprite(x, y, f.n);
        case 0xE000 => Keys(x, f.nn, io.keysDown);
        case 0xF000 => status := Misc(x, f.nn, io);
        case _ =>
      }
    }

    /** The 0x0___ family: CLS when the low nibble is 0, RET when it is 0xE. */
    method System(n: nibble)
      requires Valid()
      modifies this, display
      ensures Valid() && Abs() == S.System(old(Abs()), n)
    {
      if n == 0 {
        ClearScreen();
        displayClearFlag := true;
      } else if n == 0xE {
        pc := stack[istack];
        if istack > 0 {
          istack := istack - 1;
        }
      }
    }

    /** EX9E / EXA1. */
    method Keys(x: nibble, nn: u8, keysDown: set<u8>)
      requires Valid()
      modifies this
      ensures Valid() && Abs() == S.Keys(old(Abs()), x, nn, keysDown)
    {
      if nn == 0x9E {
        if registers[x] in keysDown {
          pc := pc + 2;
        }
      } else if nn == 0xA1 {
        if registers[x] !in keysDown {
          pc := pc + 2;
        }
      }
    }

    /** 00E0: every display cell to 0. */
    method ClearScreen()
      requires Valid()
      modifies display
      ensures Valid() && display[..] == S.Zeros(DISPLAY_LEN)
    {
      for i := 0 to display.Length
        invariant forall k :: 0 <= k < i ==> display[k] == 0
        invariant forall k :: i <= k < display.Length ==> display[k] == old(display[k])
      {
        display[i] := 0;
      }
    }

    /** 2NNN. */
    method Call(nnn: u16) returns (status: S.Status)
      requires Valid()
      modifies this, stack
      ensures Valid() && Agrees(status, S.Call(old(Abs()), nnn))
    {
      if istack + 1 >= S.STACK_SIZE {
        return S.Halted(S.StackOverflow);
      }
      istack := istack + 1;
      stack[istack] := Truncate16(pc);
      pc := nnn;
      status := S.Running;
    }

    /** The 0x8___ family on the register file. */
    method Arithmetic(x: nibble, y: nibble, n: nibble)
      requires Valid()
      modifies registers
      ensures Valid() && registers[..] == S.Alu(old(registers[..]), x, y, n)
    {
      match n {
        case 0x0 => registers[x] := registers[y];
        case 0x1 => registers[x] := Or8(registers[x], registers[y]);
        case 0x2 => registers[x] := And8(registers[x], registers[y]);
        case 0x3 => registers[x] := Xor8(registers[x], registers[y]);
        case 0x4 =>
          var res := registers[x] as int + registers[y] as int;
          if res > 255 {
            registers[S.FLAG] := 1;
          } else {
            registers[S.FLAG] := 0;
          }
          registers[x] := Truncate8(res);
        case 0x5 =>
          registers[S.FLAG] := if registers[x] > registers[y] then 1 else 0;
          registers[x] := Truncate8(registers[x] as int - registers[y] as int);
        case 0x6 =>
          registers[S.FLAG] := And8(registers[x], 0x01);
          registers[x] := registers[x] / 2;
        case 0x7 =>
          registers[S.FLAG] := if registers[y] > registers[x] then 1 else 0;
          registers[x] := Truncate8(registers[y] as int - registers[x] as int);
        case 0xE =>
          registers[S.FLAG] := And8(registers[x], 0x80);
          registers[x] := Truncate8(registers[x] as int * 2);
        case _ =>
      }
    }

    /** DXYN: the nested row/column loops with their edge `break`s. A row address past the end
        of memory is where the source's `ram[...]` panics. (`index + row` cannot wrap before
        that: with `index` at or past the end, row 0 already fails.) */
    method DrawSprite(x: nibble, y: nibble, n: nibble) returns (status: S.Status)
      requires Valid()
      modifies this, registers, display
      ensures Valid() && Agrees(status, S.DrawSprite(old(Abs()), x, y, n))
    {
      registers[S.FLAG] := 0;
      var xpos := registers[x] % DISPLAY_WIDTH;
      var ypos := registers[y] % DISPLAY_HEIGHT;
      var drawn := DrawRows(xpos, ypos, n);
      if !drawn {
        return S.Halted(S.MemoryOutOfBounds);
      }
      displayUpdateFlag := true;
      status := S.Running;
    }

    /** The outer `for row in 0..n` loop of DXYN, with the bottom-edge `break`; false when a
        row address reaches past the end of memory (the source panics there). */
    method DrawRows(xpos: nat, ypos: nat, n: nibble) returns (drawn: bool)
      requires ram.Length == S.RAM_SIZE && display.Length == DISPLAY_LEN && registers.Length == S.N_REGISTERS
      requires ram != registers && ram != display && registers != display
      requires xpos < DISPLAY_WIDTH && ypos < DISPLAY_HEIGHT && registers[S.FLAG] == 0
      requires Binary(display[..])
      modifies registers, display
      ensures Binary(display[..]) && registers[..] == old(registers[..])[S.FLAG := registers[S.FLAG]]
      ensures drawn <==> !(Rows(ypos, n) > 0 && index + Rows(ypos, n) > S.RAM_SIZE)
      ensures drawn ==>
        var c := Draw(old(display[..]), S.SpriteAt(ram[..], index, Rows(ypos, n)), xpos, ypos);
        display[..] == c.cells && registers[S.FLAG] == if c.collision then 1 else 0
    {
      ghost var d0 := display[..];
      ghost var r0 := registers[..];
      ghost var mem := ram[..];
      ghost var rows := Rows(ypos, n);
      ghost var done := 0;
      for row := 0 to n
        modifies registers, display
        invariant done == row <= rows && ypos + row <= DISPLAY_HEIGHT
        invariant row < n ==> ypos + row < DISPLAY_HEIGHT
        invariant row == 0 || index + row <= S.RAM_SIZE
        invariant display[..] == Draw(d0, S.SpriteAt(mem, index, done), xpos, ypos).cells
        invariant registers[..] == r0[S.FLAG := if Draw(d0, S.SpriteAt(mem, index, done), xpos, ypos).collision then 1 else 0]
      {
        if index as int + row >= S.RAM_SIZE {
          DrawKeepsBinary(d0, S.SpriteAt(mem, index, row), xpos, ypos);
          assert row < rows;
          return false;
        }
        var bits := ram[index as int + row];
        ModBelow(ypos + row, DISPLAY_HEIGHT);
        var cy := (ypos + row) % DISPLAY_HEIGHT;
        ghost var sprite := S.SpriteAt(mem, index, row);
        DrawNextRow(bits, xpos, ypos, cy, d0, sprite);
        assert S.SpriteAt(mem, index, row + 1) == sprite + [bits];
        done := row + 1;
        if cy == DISPLAY_HEIGHT - 1 {
          break;
        }
      }
      assert done == rows;
      DrawKeepsBinary(d0, S.SpriteAt(mem, index, rows), xpos, ypos);
      drawn := true;
    }

    /** One more row of DXYN: the display and VF go from the draw of `sprite` to that of `sprite + [bits]`. */
    method DrawNextRow(bits: u8, xpos: nat, ypos: nat, cy: nat, ghost cells: seq<u8>, ghost sprite: seq<u8>)
      requires display.Length == DISPLAY_LEN && registers.Length == S.N_REGISTERS && registers != display
      requires IsFrame(cells) && xpos < DISPLAY_WIDTH && cy == ypos + |sprite| < DISPLAY_HEIGHT
      requires display[..] == Draw(cells, sprite, xpos, ypos).cells
      requires registers[S.FLAG] == if Draw(cells, sprite, xpos, ypos).collision then 1 else 0
      modifies registers, display
      ensures display[..] == Draw(cells, sprite + [bits], xpos, ypos).cells
      ensures registers[..] == old(registers[..])[S.FLAG := if Draw(cells, sprite + [bits], xpos, ypos).collision then 1 else 0]
    {
      DrawRow(bits, xpos, cy, Draw(cells, sprite, xpos, ypos));
      DrawOneMoreRow(cells, sprite, bits, xpos, ypos);
    }

    /** The body of the column loop of DXYN: XOR sprite bit `col` onto the cell at
        (`cx`, `cy`) with `cx = (xpos + col) % 64`, setting VF on a 1 -> 0 flip. The caller
        breaks out when `cx` is the last column, which is exactly after the last visible column. */
    method PlotPixel(bits: u8, xpos: nat, cy: nat, col: nat, ghost before: Canvas) returns (cx: nat)
      requires display.Length == DISPLAY_LEN && registers.Length == S.N_REGISTERS && registers != display
      requires IsFrame(before.cells) && xpos < DISPLAY_WIDTH && cy < DISPLAY_HEIGHT && col < Cols(xpos)
      requires display[..] == PlotRow(before, bits, xpos, cy, col).cells
      requires registers[S.FLAG] == if PlotRow(before, bits, xpos, cy, col).collision then 1 else 0
      modifies registers, display
      ensures cx == DISPLAY_WIDTH - 1 ==> col + 1 == Cols(xpos)
      ensures cx != DISPLAY_WIDTH - 1 ==> col + 1 == 8 || col + 1 < Cols(xpos)
      ensures display[..] == PlotRow(before, bits, xpos, cy, col + 1).cells
      ensures registers[..] == old(registers[..])[S.FLAG := if PlotRow(before, bits, xpos, cy, col + 1).collision then 1 else 0]
    {
      ColsStep(xpos, col);
      ModBelow(xpos + col, DISPLAY_WIDTH);
      cx := (xpos + col) % DISPLAY_WIDTH;
      var i := cy * DISPLAY_WIDTH + cx;
      ghost var p := PlotRow(before, bits, xpos, cy, col);
      assert PlotRow(before, bits, xpos, cy, col + 1) == PlotCell(p, bits, col, i);
      var currentColor := display[i];
      var color := And8(bits, Mask(col));
      MaskSelectsBit(bits, col);
      if color > 0 {
        if currentColor > 0 {
          display[i] := 0;
          registers[S.FLAG] := 1;
        } else {
          display[i] := 1;
        }
      }
    }

    /** The inner `for col in 0..8` loop of DXYN for one sprite row, with the right-edge `break`. */
    method DrawRow(bits: u8, xpos: nat, cy: nat, ghost before: Canvas)
      requires display.Length == DISPLAY_LEN && registers.Length == S.N_REGISTERS && registers != display
      requires xpos < DISPLAY_WIDTH && cy < DISPLAY_HEIGHT
      requires display[..] == before.cells && registers[S.FLAG] == if before.collision then 1 else 0
      modifies registers, display
      ensures display[..] == PlotRow(before, bits, xpos, cy, Cols(xpos)).cells
      ensures registers[..] == old(registers[..])[S.FLAG := if PlotRow(before, bits, xpos, cy, Cols(xpos)).collision then 1 else 0]
    {
      ghost var r0 := registers[..];
      ghost var k := Cols(xpos);
      ghost var done := 0;
      for col := 0 to 8
        invariant done == col <= k
        invariant col < 8 ==> col < k
        invariant display[..] == PlotRow(before, bits, xpos, cy, done).cells
        invariant registers[..] == r0[S.FLAG := if PlotRow(before, bits, xpos, cy, done).collision then 1 else 0]
      {
        var cx := PlotPixel(bits, xpos, cy, col, before);
        done := col + 1;
        if cx == DISPLAY_WIDTH - 1 {
          break;
        }
      }
    }

    /** The 0xF___ family. */
    method Misc(x: nibble, nn: u8, io: S.Inputs) returns (status: S.Status)
      requires Valid()
      modifies this, ram, registers
      ensures Valid() && Agrees(status, S.Misc(old(Abs()), x, nn, io))
    {
      status := S.Running;
      match nn {
        case 0x07 => registers[x] := dt;
        case 0x0A =>
          match io.keyWait {
            case Pressed(key) => registers[x] := key;
            case Escape => return S.Halted(S.Exit);
          }
        case 0x15 => dt := registers[x];
        case 0x18 => st := registers[x];
        case 0x1E => index := Truncate16(index as int + registers[x]);
        case 0x29 => index := registers[x] as int * 0x05;
        case 0x33 => status := StoreBcd(x);
        case 0x55 => status := StoreRegisters(x);
        case 0x65 => status := LoadRegisters(x);
        case _ =>
      }
    }

    /** FX33, with the source's digit arithmetic. */
    method StoreBcd(x: nibble) returns (status: S.Status)
      requires Valid()
      modifies ram
      ensures Valid() && Agrees(status, S.StoreBcd(old(Abs()), x))
    {
      var num := registers[x];
      var h := num / 100;
      var t := (num - h * 100) / 10;
      var o := num - h * 100 - t * 10;
      var i := index as int;
      if i + 2 >= S.RAM_SIZE {
        return S.Halted(S.MemoryOutOfBounds);
      }
      ram[i] := h;
      ram[i + 1] := t;
      ram[i + 2] := o;
      status := S.Running;
    }

    /** FX55: `ram[I + reg] = V[reg]` for `reg` in `0..=x`. */
    method StoreRegisters(x: nibble) returns (status: S.Status)
      requires Valid()
      modifies ram
      ensures Valid() && Agrees(status, S.StoreRegisters(old(Abs()), x))
    {
      for reg := 0 to x + 1
        invariant reg == 0 || index + reg <= S.RAM_SIZE
        invariant forall k :: 0 <= k < S.RAM_SIZE ==>
          ram[k] == if index <= k < index + reg then registers[k - index] else old(ram[k])
      {
        if index as int + reg >= S.RAM_SIZE {
          return S.Halted(S.MemoryOutOfBounds);
        }
        ram[index as int + reg] := registers[reg];
      }
      status := S.Running;
      assert ram[..] == old(ram[..index]) + registers[..x + 1] + old(ram[index + x + 1..]);
    }

    /** FX65: `V[reg] = ram[I + reg]` for `reg` in `0..=x`. */
    method LoadRegisters(x: nibble) returns (status: S.Status)
      requires Valid()
      modifies registers
      ensures Valid() && Agrees(status, S.LoadRegisters(old(Abs()), x))
    {
      for reg := 0 to x + 1
        invariant reg == 0 || index + reg <= S.RAM_SIZE
        invariant forall k :: 0 <= k < S.N_REGISTERS ==>
          registers[k] == if k < reg then ram[index + k] else old(registers[k])
      {
        if index as int + reg >= S.RAM_SIZE {
          return S.Halted(S.MemoryOutOfBounds);
        }
        registers[reg] := ram[index as int + reg];
      }
      status := S.Running;
      assert registers[..] == ram[index..index + x + 1] + old(registers[x + 1..]);
    }
  }
}
