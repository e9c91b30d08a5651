/** What one cycle of the machine in semantics.dfy guarantees: the invariant it keeps, how the
    timers run down, the arithmetic of the 0x8___ family, subroutine calls and returns, the
    sprite XOR of DXYN, the memory transfers of the 0xF___ family, and when a run halts. */
module Properties {
  import opened Bytes
  import opened Instruction
  import opened Sprite
  import opened Semantics

  // ---------------------------------------------------------------- the machine invariant

  /** DXYN keeps the framebuffer 0/1. */
  lemma DrawSpritePreservesValid(m: Machine, x: nibble, y: nibble, n: nibble)
    requires Valid(m)
    ensures Valid(DrawSprite(m, x, y, n).machine)
  {
    var r := m.registers[FLAG := 0];
    var xpos, ypos := r[x] % DISPLAY_WIDTH, r[y] % DISPLAY_HEIGHT;
    var rows := Rows(ypos, n);
    if !(rows > 0 && m.index + rows > RAM_SIZE) {
      DrawKeepsBinary(m.display, SpriteAt(m.ram, m.index, rows), xpos, ypos);
    }
  }

  lemma ExecuteFlowPreservesValid(m: Machine, f: Fields)
    requires Valid(m)
    ensures Valid(ExecuteFlow(m, f).machine)
  {
    if f.code == 0x0000 {
      assert Binary(Zeros(DISPLAY_LEN));
      assert Valid(System(m, f.n));
    } else if f.code == 0x2000 {
      assert Valid(Call(m, f.nnn).machine);
    }
  }

  lemma ExecuteDataPreservesValid(m: Machine, f: Fields, io: Inputs)
    requires Valid(m)
    ensures Valid(ExecuteData(m, f, io).machine)
  {
    if f.code == 0xD000 {
      DrawSpritePreservesValid(m, f.x, f.y, f.n);
    } else if f.code == 0xF000 {
      MiscPreservesValid(m, f.x, f.nn, io);
    } else if f.code == 0x8000 {
      AluFrame(m.registers, f.x, f.y, f.n);
    }
  }

  lemma MiscPreservesValid(m: Machine, x: nibble, nn: u8, io: Inputs)
    requires Valid(m)
    ensures Valid(Misc(m, x, nn, io).machine)
  {
    if nn == 0x55 {
      assert |StoreRegisters(m, x).machine.ram| == RAM_SIZE;
    } else if nn == 0x65 {
      assert |LoadRegisters(m, x).machine.registers| == N_REGISTERS;
    }
  }

  /** Every instruction keeps the sizes, the stack top and the 0/1 framebuffer. */
  lemma ExecutePreservesValid(m: Machine, f: Fields, io: Inputs)
    requires Valid(m)
    ensures Valid(Execute(m, f, io).machine)
  {
    if f.code < 0x8000 {
      ExecuteFlowPreservesValid(m, f);
    } else {
      ExecuteDataPreservesValid(m, f, io);
    }
  }

  /** A whole cycle keeps the invariant, and the clock fields only move forward. */
  lemma CyclePreservesValid(m: Machine, t: nat, io: Inputs)
    requires Valid(m) && m.lastTimerT <= t && m.lastInstructionT <= t
    ensures var r := Cycle(m, t, io).machine;
      Valid(r) && m.lastTimerT <= r.lastTimerT <= t && m.lastInstructionT <= r.lastInstructionT <= t
  {
    var m1 := Tick(m.(displayUpdateFlag := false, displayClearFlag := false), t);
    if InstructionDue(m1, t) {
      FetchExecutePreservesValid(m1, t, io);
    }
  }

  lemma FetchExecutePreservesValid(m: Machine, t: nat, io: Inputs)
    requires Valid(m) && m.lastInstructionT <= t
    ensures var r := FetchExecute(m, t, io).machine;
      Valid(r) && m.lastTimerT == r.lastTimerT && m.lastInstructionT <= r.lastInstructionT <= t
  {
    if m.pc + 1 < RAM_SIZE {
      var w := Word(m.ram[m.pc], m.ram[m.pc + 1]);
      ExecutePreservesValid(m.(pc := m.pc + 2), Decode(w), io);
      ExecuteKeepsClock(m.(pc := m.pc + 2), Decode(w), io);
    }
  }

  /** No instruction touches the two recorded times. */
  lemma ExecuteKeepsClock(m: Machine, f: Fields, io: Inputs)
    requires Valid(m)
    ensures Execute(m, f, io).machine.lastTimerT == m.lastTimerT
    ensures Execute(m, f, io).machine.lastInstructionT == m.lastInstructionT
  {
    if f.code < 0x8000 {
      assert Execute(m, f, io) == ExecuteFlow(m, f);
    } else {
      assert Execute(m, f, io) == ExecuteData(m, f, io);
      if f.code == 0xF000 {
        MiscFrame(m, f.x, f.nn, io);
      }
    }
  }

  // ---------------------------------------------------------------- timers

  /** One timer gate: both timers count down by at most one and never below 0; the beep flag
      follows the sound timer when the sound timer moved and keeps its value otherwise; the
      tick time is recorded only when the gate opens. */
  lemma TickCountsDown(m: Machine, t: nat)
    requires m.lastTimerT <= t
    ensures var r := Tick(m, t);
      && r.dt <= m.dt <= r.dt + 1 && r.st <= m.st <= r.st + 1
      && (r.dt < m.dt <==> t - m.lastTimerT > TIMER_PERIOD_NS && m.dt > 0)
      && (r.st < m.st <==> t - m.lastTimerT > TIMER_PERIOD_NS && m.st > 0)
      && (r.st < m.st ==> (r.beepFlag <==> r.st > 0))
      && (r.st == m.st ==> r.beepFlag == m.beepFlag)
      && r.lastTimerT == (if t - m.lastTimerT > TIMER_PERIOD_NS then t else m.lastTimerT)
      && r == m.(dt := r.dt, st := r.st, beepFlag := r.beepFlag, lastTimerT := r.lastTimerT)
  {
  }

  /** A clock reading for each cycle, never going back. */
  ghost predicate Monotone(start: nat, ts: seq<nat>) {
    && (forall i :: 0 <= i < |ts| ==> start <= ts[i])
    && (forall i, j :: 0 <= i < j < |ts| ==> ts[i] <= ts[j])
  }

  /** The timer gates of a run of cycles at the clock readings `ts`. */
  ghost function Ticks(m: Machine, ts: seq<nat>): Machine
    requires Monotone(m.lastTimerT, ts)
    decreases |ts|
  {
    if ts == [] then m
    else
      var m1 := Tick(m, ts[0]);
      assert Monotone(m1.lastTimerT, ts[1..]);
      Ticks(m1, ts[1..])
  }

  /** The timers run at most at 60 Hz: each unit the delay or sound timer loses costs more
      than a full period of clock time. */
  lemma {:induction false} TimersRunAtMostSixtyHertz(m: Machine, ts: seq<nat>)
    requires Monotone(m.lastTimerT, ts)
    decreases |ts|
    ensures var r := Ticks(m, ts);
      && r.dt <= m.dt && r.st <= m.st && m.lastTimerT <= r.lastTimerT
      && (m.dt - r.dt) * (TIMER_PERIOD_NS + 1) <= r.lastTimerT - m.lastTimerT
      && (m.st - r.st) * (TIMER_PERIOD_NS + 1) <= r.lastTimerT - m.lastTimerT
      && r.ram == m.ram && r.registers == m.registers && r.pc == m.pc && r.display == m.display
  {
    if ts != [] {
      var m1 := Tick(m, ts[0]);
      assert Monotone(m1.lastTimerT, ts[1..]);
      TimersRunAtMostSixtyHertz(m1, ts[1..]);
    }
  }

  /** With the gate closed, a cycle only clears the two display flags and runs the timers. */
  lemma ClosedGateOnlyTicks(m: Machine, t: nat, io: Inputs)
    requires Valid(m) && m.lastTimerT <= t && m.lastInstructionT <= t
    requires t - m.lastInstructionT <= m.instructionTimeNs
    ensures Cycle(m, t, io) == Continue(Tick(m.(displayUpdateFlag := false, displayClearFlag := false), t))
  {
  }

  // ---------------------------------------------------------------- the 0x8___ family

  /** 8XY4 for x != F: the 9-bit sum is split into Vx and the carry in VF. */
  lemma AddSplitsCarry(r: seq<u8>, x: nibble, y: nibble)
    requires |r| == N_REGISTERS && x != FLAG
    ensures var r' := Alu(r, x, y, 0x4);
      && r'[x] as int + 0x100 * r'[FLAG] as int == r[x] as int + r[y] as int
      && forall i :: 0 <= i < N_REGISTERS && i != x && i != FLAG ==> r'[i] == r[i]
  {
    var sum := r[x] as int + r[y] as int;
    assert 0 <= sum < 0x200;
    DivModUnique(sum, 0x100, if sum > 255 then 1 else 0, Truncate8(sum));
  }

  /** 8FY4: the sum overwrites the carry, so VF ends with the low byte of VF + Vy. */
  lemma AddIntoFlag(r: seq<u8>, y: nibble)
    requires |r| == N_REGISTERS
    ensures Alu(r, FLAG, y, 0x4)[FLAG] == (r[FLAG] as int + r[y] as int) % 0x100
  {
  }

  /** 8XY5 for x, y != F: VF is 1 exactly when Vx > Vy, and Vx becomes Vx - Vy modulo 256. */
  lemma SubSetsNoBorrow(r: seq<u8>, x: nibble, y: nibble)
    requires |r| == N_REGISTERS && x != FLAG && y != FLAG
    ensures var r' := Alu(r, x, y, 0x5);
      && (r'[FLAG] == 1 <==> r[x] > r[y]) && (r'[FLAG] == 0 <==> r[x] <= r[y])
      && r'[x] == (r[x] as int - r[y] as int) % 0x100
      && forall i :: 0 <= i < N_REGISTERS && i != x && i != FLAG ==> r'[i] == r[i]
  {
  }

  /** 8XY5 with 5 in Vx and 10 in Vy: Vx wraps to 251 and VF is 0. Equal operands also give 0. */
  lemma SubExamples(r: seq<u8>)
    requires |r| == N_REGISTERS && r[0] == 5 && r[1] == 10
    ensures Alu(r, 0, 1, 0x5)[0] == 251 && Alu(r, 0, 1, 0x5)[FLAG] == 0
    ensures Alu(r, 1, 1, 0x5)[1] == 0 && Alu(r, 1, 1, 0x5)[FLAG] == 0
  {
  }

  /** 8XF5: VF is written before the subtraction reads it, so Vx loses the new flag, not the old VF. */
  lemma SubReadsNewFlag(r: seq<u8>, x: nibble)
    requires |r| == N_REGISTERS && x != FLAG
    ensures var f := if r[x] > r[FLAG] then 1 else 0;
      Alu(r, x, FLAG, 0x5)[x] == (r[x] as int - f) % 0x100 && Alu(r, x, FLAG, 0x5)[FLAG] == f
  {
  }

  /** 8XY6 for x != F: Vx is halved and the bit shifted out lands in VF. */
  lemma ShiftRightKeepsLowBit(r: seq<u8>, x: nibble, y: nibble)
    requires |r| == N_REGISTERS && x != FLAG
    ensures var r' := Alu(r, x, y, 0x6);
      && r'[FLAG] <= 1 && 2 * r'[x] as int + r'[FLAG] as int == r[x] as int
      && forall i :: 0 <= i < N_REGISTERS && i != x && i != FLAG ==> r'[i] == r[i]
  {
    LowBitMask(r[x]);
  }

  /** 8XY7 for x, y != F: VF is 1 exactly when Vy > Vx, and Vx becomes Vy - Vx modulo 256. */
  lemma ReverseSubSetsNoBorrow(r: seq<u8>, x: nibble, y: nibble)
    requires |r| == N_REGISTERS && x != FLAG && y != FLAG
    ensures var r' := Alu(r, x, y, 0x7);
      && (r'[FLAG] == 1 <==> r[y] > r[x]) && (r'[FLAG] == 0 <==> r[y] <= r[x])
      && r'[x] == (r[y] as int - r[x] as int) % 0x100
      && forall i :: 0 <= i < N_REGISTERS && i != x && i != FLAG ==> r'[i] == r[i]
  {
  }

  /** 8XYE for x != F: Vx is doubled modulo 256 and VF keeps the top bit *in place*
      (`Vx & 0x80`, so 0 or 0x80, not 0 or 1). */
  lemma ShiftLeftKeepsTopBit(r: seq<u8>, x: nibble, y: nibble)
    requires |r| == N_REGISTERS && x != FLAG
    ensures var r' := Alu(r, x, y, 0xE);
      && (r'[FLAG] == 0x80 <==> r[x] >= 0x80) && (r'[FLAG] == 0 <==> r[x] < 0x80)
      && r'[x] as int + 2 * r'[FLAG] as int == 2 * (r[x] as int)
      && forall i :: 0 <= i < N_REGISTERS && i != x && i != FLAG ==> r'[i] == r[i]
  {
    TopBitMask(r[x]);
  }

  /** The sub-codes 8XY0..8XY3 change Vx alone; unnamed sub-codes change nothing. */
  lemma AluFrame(r: seq<u8>, x: nibble, y: nibble, n: nibble)
    requires |r| == N_REGISTERS
    ensures |Alu(r, x, y, n)| == N_REGISTERS
    ensures n <= 3 ==> forall i :: 0 <= i < N_REGISTERS && i != x ==> Alu(r, x, y, n)[i] == r[i]
    ensures n !in {0x0, 0x1, 0x2, 0x3, 0x4, 0x5, 0x6, 0x7, 0xE} ==> Alu(r, x, y, n) == r
  {
  }

  // ---------------------------------------------------------------- subroutines

  /** 2NNN followed by 00EE returns to the instruction after the call with the stack top
      restored, whatever the subroutine address; the slots below the new top are untouched. */
  lemma CallThenReturn(m: Machine, call: Fields, ret: Fields, io: Inputs)
    requires Valid(m) && call.code == 0x2000 && ret.code == 0 && ret.n == 0xE && m.pc < 0x1_0000
    requires Execute(m, call, io).status.Running?
    ensures var c := Execute(m, call, io).machine;
      var r := Execute(c, ret, io);
      && c.pc == call.nnn && c.istack == m.istack + 1 && c.stack[c.istack] == m.pc
      && c.stack[..m.istack + 1] == m.stack[..m.istack + 1]
      && r.status.Running? && r.machine.pc == m.pc && r.machine.istack == m.istack
  {
    var c := Execute(m, call, io).machine;
    assert c.stack[m.istack + 1] == m.pc;
  }

  /** A subroutine body that leaves the stack balanced (the same top, and the return address
      in its slot) can run between the call and 00EE: the return still lands after the call,
      pops the frame, and changes nothing else. */
  lemma CallThenLaterReturn(m: Machine, call: Fields, ret: Fields, c': Machine, io: Inputs)
    requires Valid(m) && call.code == 0x2000 && ret.code == 0 && ret.n == 0xE && m.pc < 0x1_0000
    requires Execute(m, call, io).status.Running?
    requires var c := Execute(m, call, io).machine;
      Valid(c') && c'.istack == c.istack && c'.stack[c'.istack] == c.stack[c.istack]
    ensures Execute(c', ret, io) == Continue(c'.(pc := m.pc, istack := m.istack))
  {
    CallThenReturn(m, call, ret, io);
  }

  /** CALL fails exactly when the stack top is already at the last slot: 63 nested calls fit. */
  lemma CallOverflow(m: Machine, nnn: u16)
    requires Valid(m)
    ensures Call(m, nnn).status.Halted? <==> m.istack == STACK_SIZE - 1
    ensures Call(m, nnn).status.Halted? ==> Call(m, nnn) == Step(Halted(StackOverflow), m)
  {
  }

  /** The top moves up before the store, so stack slot 0 is never written by any instruction. */
  lemma StackBottomNeverWritten(m: Machine, f: Fields, io: Inputs)
    requires Valid(m)
    ensures Valid(Execute(m, f, io).machine) && Execute(m, f, io).machine.stack[0] == m.stack[0]
  {
    ExecutePreservesValid(m, f, io);
    if f.code >= 0x8000 {
      ExecuteDataKeepsStack(m, f, io);
    }
  }

  /** The families 0x8___ to 0xF___ never touch the stack. */
  lemma ExecuteDataKeepsStack(m: Machine, f: Fields, io: Inputs)
    requires Valid(m)
    ensures ExecuteData(m, f, io).machine.stack == m.stack
    ensures ExecuteData(m, f, io).machine.istack == m.istack
  {
    if f.code == 0xF000 {
      MiscFrame(m, f.x, f.nn, io);
    }
  }

  /** The 0xF___ family changes only the registers, the memory, the timers and I. */
  lemma MiscFrame(m: Machine, x: nibble, nn: u8, io: Inputs)
    requires Valid(m)
    ensures var r := Misc(m, x, nn, io).machine;
      r == m.(registers := r.registers, ram := r.ram, dt := r.dt, st := r.st, index := r.index)
  {
    if nn == 0x33 {
      var r := StoreBcd(m, x).machine;
      assert r == m.(ram := r.ram);
    } else if nn == 0x55 {
      var r := StoreRegisters(m, x).machine;
      assert r == m.(ram := r.ram);
    } else if nn == 0x65 {
      var r := LoadRegisters(m, x).machine;
      assert r == m.(registers := r.registers);
    }
  }

  // ---------------------------------------------------------------- DXYN

  /** What DXYN may touch. VF is cleared before the coordinates are read, so a Y of F reads 0.
      It halts exactly when the rows it would draw reach past memory; otherwise it changes no
      register but VF, which ends 0 or 1, and no memory, stack, timer, `I` or `pc`. */
  lemma DrawSpriteFrame(m: Machine, x: nibble, y: nibble, n: nibble)
    requires Valid(m)
    ensures var ypos := (if y == FLAG then 0 else m.registers[y]) % DISPLAY_HEIGHT;
      var s := DrawSprite(m, x, y, n);
      && (s.status.Halted? <==> Rows(ypos, n) > 0 && m.index + Rows(ypos, n) > RAM_SIZE)
      && (s.status.Running? ==>
            && s.machine.registers[FLAG] <= 1
            && (forall i :: 0 <= i < N_REGISTERS && i != FLAG ==> s.machine.registers[i] == m.registers[i])
            && s.machine == m.(registers := s.machine.registers, display := s.machine.display, displayUpdateFlag := true))
  {
  }

  /** DXYN sets VF to 1 exactly when it turns some lit cell off, flips exactly the cells under
      set sprite bits, and changes nothing else but the display-update flag. */
  lemma DrawSpriteFlipsAndReports(m: Machine, x: nibble, y: nibble, n: nibble)
    requires Valid(m) && DrawSprite(m, x, y, n).status.Running?
    ensures var r := m.registers[FLAG := 0];
      var xpos, ypos := r[x] % DISPLAY_WIDTH, r[y] % DISPLAY_HEIGHT;
      var sprite := SpriteAt(m.ram, m.index, Rows(ypos, n));
      var d := DrawSprite(m, x, y, n).machine;
      && (forall i :: 0 <= i < DISPLAY_LEN ==>
            d.display[i] == if Lit(sprite, xpos, ypos, i) then Flip(m.display[i]) else m.display[i])
      && (d.registers[FLAG] == 1 <==> exists i :: 0 <= i < DISPLAY_LEN && Lit(sprite, xpos, ypos, i) && m.display[i] == 1)
      && d.registers[FLAG] <= 1
      && (forall i :: 0 <= i < N_REGISTERS && i != FLAG ==> d.registers[i] == m.registers[i])
      && d == m.(registers := d.registers, display := d.display, displayUpdateFlag := true)
  {
    var r := m.registers[FLAG := 0];
    var xpos, ypos := r[x] % DISPLAY_WIDTH, r[y] % DISPLAY_HEIGHT;
    var sprite := SpriteAt(m.ram, m.index, Rows(ypos, n));
    DrawCells(m.display, sprite, xpos, ypos);
    if exists i :: 0 <= i < DISPLAY_LEN && Lit(sprite, xpos, ypos, i) && m.display[i] > 0 {
      var i :| 0 <= i < DISPLAY_LEN && Lit(sprite, xpos, ypos, i) && m.display[i] > 0;
      assert m.display[i] == 1;
    }
  }

  /** Drawing the same sprite twice at the same place erases it: the display returns to what it
      was, for any registers X and Y (even VF, which reads as 0 both times). */
  lemma DrawSpriteTwiceRestores(m: Machine, x: nibble, y: nibble, n: nibble)
    requires Valid(m) && DrawSprite(m, x, y, n).status.Running?
    ensures var once := DrawSprite(m, x, y, n).machine;
      Valid(once) && DrawSprite(once, x, y, n).status.Running? && DrawSprite(once, x, y, n).machine.display == m.display
  {
    var r := m.registers[FLAG := 0];
    var xpos, ypos := r[x] % DISPLAY_WIDTH, r[y] % DISPLAY_HEIGHT;
    var sprite := SpriteAt(m.ram, m.index, Rows(ypos, n));
    var once := DrawSprite(m, x, y, n).machine;
    DrawKeepsBinary(m.display, sprite, xpos, ypos);
    var r1 := once.registers[FLAG := 0];
    assert r1[x] == r[x] && r1[y] == r[y];
    DrawTwice(m.display, sprite, xpos, ypos);
  }

  // ---------------------------------------------------------------- the 0xF___ family

  /** FX33 writes the three decimal digits of Vx at I..I+2 and nothing else; it halts exactly
      when I + 2 is past the end of memory. */
  lemma StoreBcdDigits(m: Machine, x: nibble)
    requires Valid(m)
    ensures StoreBcd(m, x).status.Halted? <==> m.index + 2 >= RAM_SIZE
    ensures StoreBcd(m, x).status.Running? ==>
      var r := StoreBcd(m, x).machine;
      var i := m.index as int;
      && 100 * r.ram[i] + 10 * r.ram[i + 1] + r.ram[i + 2] == m.registers[x]
      && r.ram[i + 1] < 10 && r.ram[i + 2] < 10
      && (forall k :: 0 <= k < RAM_SIZE && !(i <= k < i + 3) ==> r.ram[k] == m.ram[k])
      && r == m.(ram := r.ram)
  {
  }

  /** FX33 on 255 and on 0. */
  lemma BcdExamples()
    ensures Bcd(255) == Digits(2, 5, 5) && Bcd(0) == Digits(0, 0, 0) && Bcd(100) == Digits(1, 0, 0)
  {
  }

  /** FX55 followed by FX65 with the same X and I reads back the registers it stored, and
      leaves the memory as FX55 wrote it. */
  lemma StoreThenLoadRoundTrip(m: Machine, x: nibble)
    requires Valid(m) && m.index + x < RAM_SIZE
    ensures var s := StoreRegisters(m, x);
      var l := LoadRegisters(s.machine, x);
      && s.status.Running? && l.status.Running?
      && l.machine.registers == m.registers && l.machine.ram == s.machine.ram
      && s.machine.ram[m.index..m.index + x + 1] == m.registers[..x + 1]
  {
    var s := StoreRegisters(m, x).machine;
    var i := m.index as int;
    assert s.ram[i..i + x + 1] == m.registers[..x + 1];
    assert m.registers[..x + 1] + m.registers[x + 1..] == m.registers;
  }

  /** FX65 followed by FX55 with the same X and I leaves the memory as it was. */
  lemma LoadThenStoreKeepsMemory(m: Machine, x: nibble)
    requires Valid(m) && m.index + x < RAM_SIZE
    ensures var l := LoadRegisters(m, x);
      var s := StoreRegisters(l.machine, x);
      l.status.Running? && s.status.Running? && s.machine.ram == m.ram
  {
    var l := LoadRegisters(m, x).machine;
    var i := m.index as int;
    assert l.registers[..x + 1] == m.ram[i..i + x + 1];
    assert m.ram[..i] + m.ram[i..i + x + 1] + m.ram[i + x + 1..] == m.ram;
  }

  /** FX55 and FX65 halt exactly when the last address I + X is past the end of memory. */
  lemma TransferBounds(m: Machine, x: nibble)
    requires Valid(m)
    ensures StoreRegisters(m, x).status.Halted? <==> m.index + x >= RAM_SIZE
    ensures LoadRegisters(m, x).status.Halted? <==> m.index + x >= RAM_SIZE
  {
  }

  /** FX1E wraps I at 16 bits; FX29 points I at the five-byte glyph of the low digit. */
  lemma IndexArithmetic(m: Machine, x: nibble, io: Inputs)
    requires Valid(m)
    ensures Misc(m, x, 0x1E, io).machine.index == (m.index as int + m.registers[x] as int) % 0x1_0000
    ensures m.registers[x] < 16 ==>
      var i := Misc(m, x, 0x29, io).machine.index;
      i == 5 * m.registers[x] && i + 5 <= FONT_LEN
  {
  }

  /** FX0A ends the run exactly on Escape, with the state as it was. Otherwise it stores the
      pressed key in Vx and in no other register, and the key is a hex digit whose glyph a
      following FX29 finds inside the font. */
  lemma KeyWaitThenGlyph(m: Machine, x: nibble, io: Inputs)
    requires Valid(m)
    ensures var s := Misc(m, x, 0x0A, io);
      && (s.status.Halted? <==> io.keyWait.Escape?)
      && (s.status.Halted? ==> s == Step(Halted(Exit), m))
      && (s.status.Running? ==>
            && Valid(s.machine)
            && (forall i :: 0 <= i < N_REGISTERS && i != x ==> s.machine.registers[i] == m.registers[i])
            && s.machine == m.(registers := s.machine.registers)
            && var g := Misc(s.machine, x, 0x29, io).machine.index;
               s.machine.registers[x] == io.keyWait.key && g == 5 * io.keyWait.key && g + 5 <= FONT_LEN)
  {
  }

  // ---------------------------------------------------------------- dispatch quirks

  /** The 0x0___ family looks only at the low nibble: 0x0XY0 clears the screen, 0x0XYE returns,
      and every other word of the family leaves the state as it is. */
  lemma SystemLowNibbleOnly(m: Machine, f: Fields, io: Inputs)
    requires Valid(m) && f.code == 0
    ensures f.n == 0 ==> Execute(m, f, io) == Continue(m.(display := Zeros(DISPLAY_LEN), displayClearFlag := true))
    ensures f.n == 0xE ==> Execute(m, f, io).machine.pc == m.stack[m.istack]
    ensures f.n != 0 && f.n != 0xE ==> Execute(m, f, io) == Continue(m)
  {
  }

  /** 5XYN and 9XYN ignore N, and exactly one of 5XY_ / 9XY_ skips; likewise 3XNN / 4XNN. */
  lemma SkipsAreComplementary(m: Machine, f: Fields, g: Fields, io: Inputs)
    requires Valid(m) && f.x == g.x && f.y == g.y && f.nn == g.nn
    ensures f.code == 0x3000 && g.code == 0x4000 ==>
      (Execute(m, f, io).machine.pc == m.pc + 2) != (Execute(m, g, io).machine.pc == m.pc + 2)
    ensures f.code == 0x5000 && g.code == 0x9000 ==>
      (Execute(m, f, io).machine.pc == m.pc + 2) != (Execute(m, g, io).machine.pc == m.pc + 2)
    ensures f.code == 0x5000 && g.code == 0x5000 ==> Execute(m, f, io) == Execute(m, g, io)
  {
  }

  /** Only CALL, DXYN and the 0xF___ family can end a run, and a halted step reports the state
      it started from. */
  lemma OnlyFewInstructionsHalt(m: Machine, f: Fields, io: Inputs)
    requires Valid(m)
    ensures Execute(m, f, io).status.Halted? ==>
      f.code in {0x2000, 0xD000, 0xF000} && Execute(m, f, io).machine == m
  {
  }

  /** A cycle with the gate open fetches at `pc`: it halts when `pc` is on or past the last byte,
      and a cycle that keeps running records the time of its instruction. */
  lemma OpenGateFetches(m: Machine, t: nat, io: Inputs)
    requires Valid(m) && m.lastTimerT <= t && m.lastInstructionT <= t
    requires t - m.lastInstructionT > m.instructionTimeNs
    ensures var m1 := Tick(m.(displayUpdateFlag := false, displayClearFlag := false), t);
      var s := Cycle(m, t, io);
      && (m.pc >= RAM_SIZE ==> s == Step(Halted(ProgramOutOfBounds), m1))
      && (m.pc == RAM_SIZE - 1 ==> s == Step(Halted(MemoryOutOfBounds), m1))
      && (s.status.Running? ==> m.pc + 1 < RAM_SIZE && s.machine.lastInstructionT == t)
  {
    var m1 := Tick(m.(displayUpdateFlag := false, displayClearFlag := false), t);
    assert Cycle(m, t, io) == FetchExecute(m1, t, io);
  }

  /** With both display flags lowered, an instruction that keeps running raises the clear flag
      exactly for CLS (any 0x0XY0) and the update flag exactly for DXYN. */
  lemma ExecuteDisplayFlags(m: Machine, f: Fields, io: Inputs)
    requires Valid(m) && !m.displayUpdateFlag && !m.displayClearFlag
    ensures var s := Execute(m, f, io);
      s.status.Running? ==>
        && (s.machine.displayClearFlag <==> f.code == 0 && f.n == 0)
        && (s.machine.displayUpdateFlag <==> f.code == 0xD000)
  {
    if f.code == 0xF000 {
      MiscFrame(m, f.x, f.nn, io);
    }
  }

  /** The open gate on a state with both display flags lowered: a running fetch raises the
      clear flag exactly for CLS and the update flag exactly for DXYN. */
  lemma FetchExecuteDisplayFlags(m: Machine, t: nat, io: Inputs)
    requires Valid(m) && !m.displayUpdateFlag && !m.displayClearFlag
    ensures var s := FetchExecute(m, t, io);
      s.status.Running? ==>
        (m.pc + 1 < RAM_SIZE &&
          var f := Decode(Word(m.ram[m.pc], m.ram[m.pc + 1]));
          && (s.machine.displayClearFlag <==> f.code == 0 && f.n == 0)
          && (s.machine.displayUpdateFlag <==> f.code == 0xD000))
  {
    if m.pc + 1 < RAM_SIZE {
      var f := Decode(Word(m.ram[m.pc], m.ram[m.pc + 1]));
      ExecuteDisplayFlags(m.(pc := m.pc + 2), f, io);
    }
  }

  /** A running cycle leaves both display flags lowered unless its gate was open and the word
      it fetched was CLS (the clear flag) or DXYN (the update flag). */
  lemma CycleDisplayFlags(m: Machine, t: nat, io: Inputs)
    requires Valid(m) && m.lastTimerT <= t && m.lastInstructionT <= t
    ensures var s := Cycle(m, t, io);
      var due := t - m.lastInstructionT > m.instructionTimeNs;
      s.status.Running? ==>
        && (!due ==> !s.machine.displayClearFlag && !s.machine.displayUpdateFlag)
        && (due ==>
              (m.pc + 1 < RAM_SIZE &&
                var f := Decode(Word(m.ram[m.pc], m.ram[m.pc + 1]));
                && (s.machine.displayClearFlag <==> f.code == 0 && f.n == 0)
                && (s.machine.displayUpdateFlag <==> f.code == 0xD000)))
  {
    var m1 := Tick(m.(displayUpdateFlag := false, displayClearFlag := false), t);
    assert m1.ram == m.ram && m1.pc == m.pc && m1.lastInstructionT == m.lastInstructionT;
    if InstructionDue(m1, t) {
      FetchExecuteDisplayFlags(m1, t, io);
    }
  }

  /** A freshly loaded machine starts at 0x200 on the first two ROM bytes. */
  lemma InitFetchesRom(rom: seq<u8>, startT: nat, instructionTimeNs: nat)
    requires 2 <= |rom| && PROGRAM_LOC + |rom| <= RAM_SIZE
    ensures var m := Init(rom, startT, instructionTimeNs);
      m.ram[m.pc] == rom[0] && m.ram[m.pc + 1] == rom[1]
  {
  }
}
