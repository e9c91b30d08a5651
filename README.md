# CHIP-8 interpreter core, modelled and verified in Dafny

This project models the interpreter core of a CHIP-8 emulator written in Rust: the
`Chip8` struct of `src/chip8.rs`, its constructor `Chip8::new` and its `cycle` method. One
`cycle(t, ...)` does four things:

- clears the two display flags;
- runs the 60 Hz delay and sound timers;
- when the instruction gate is open, fetches the big-endian word at `pc`, advances `pc` by 2
  and executes every CHIP-8 opcode the dispatcher knows;
- records the time of the instruction.

The model has two layers:

- **Specification** (`semantics.dfy`, module `Semantics`). The machine state is a value,
  `Machine`. One cycle is a function from the old state to a `Step`: a status (`Running`, or
  `Halted(reason)` where the Rust program panics or exits) and the new state. `Init` is
  `Chip8::new`.
- **Implementation** (`emulator.dfy`, module `Emulator`). `class Chip8` keeps memory, registers,
  stack and framebuffer in arrays and updates them statement by statement, as the Rust code
  does. That includes the two nested `for` loops of DXYN with their edge `break`s, and the
  font and ROM copy loops of `new`. Every method is proved to compute the specification
  function on the abstract state `Abs()`.

Supporting modules:

- `bytes.dfy`: `u8`/`u16` ranges and the wrap-around and bit operations used.
- `instruction.dfy`: fetch, decode and binary-coded decimal.
- `sprite.dfy`: the XOR sprite drawing of DXYN, and what it does to each cell and to VF.
- `properties.dfy`: what the source promises about one cycle and about runs of cycles.

The world outside the struct becomes inputs:

- the clock reading `t` is a parameter;
- the SDL event pump becomes `Inputs`, which holds:
  - the set of register values whose mapped key is held down (EX9E/EXA1);
  - how the blocking key wait of FX0A ends: a key, or Escape/CapsLock;
  - the random byte of CXNN.

Where the code departs from the usual CHIP-8 behaviour, the model follows the code:

- **8XYE** stores `Vx & 0x80` in VF, which is 0 or 0x80, not the shifted-out bit as 0 or 1
  (`Properties.ShiftLeftKeepsTopBit`).
- **Errors are panics.** A stack overflow, a `pc` past memory, or a memory access past the end
  are Rust panics (index out of bounds, `panic!`), not recoverable errors. The model reports
  each one during a cycle as `Halted(reason)`. FX0A's Escape is a deliberate `process::exit`,
  `Halted(Exit)`. A ROM too large also panics in `new`; the model states that case as a
  precondition (see "Left out").
- **Unknown opcodes** are skipped: `pc` has already moved past them at fetch time.
- **The 0x0___ family** is dispatched on the low nibble alone. Any word `0x0XY0` clears the
  screen, and any `0x0XYE` returns to the address on top of the stack
  (`Properties.SystemLowNibbleOnly`).
- **5XYN and 9XYN** do not check that N is 0.

The address `I + row` of DXYN is `u16` arithmetic in the source. It can never wrap: an `I` large
enough to wrap already fails the bounds check on row 0. The model therefore halts exactly when
the rows to be drawn reach past 4096 bytes.

## Model

The specification functions of module `Semantics` are the definitions the rows below refer to:
`Cycle`, `Tick`, `FetchExecute`, `Execute`, `ExecuteFlow`, `ExecuteData`, `System`, `Call`, `Alu`,
`DrawSprite`, `Keys`, `Misc`, `StoreBcd`, `StoreRegisters` and `LoadRegisters`, with `Sprite.Draw`
built from `PlotRows`, `PlotRow` and `PlotCell` for DXYN. Each models the source lines cited
for the `Emulator.Chip8` method of the same name, and `Sprite.Draw` models chip8.rs lines
298-338. They carry no contract of their own. What each promises is stated by the lemmas in
the rows below and by the method proved equal to it.

| member | source | states |
|---|---|---|
| Semantics.Memory | src/chip8.rs:54-99 | The memory image of `new`: font at 0..80, ROM at 0x200.., zeros elsewhere, 4096 bytes |
| Semantics.Init | src/chip8.rs:50-125 | A new machine: the memory image above, zeroed registers, stack, timers and display, `pc` = 0x200, both clocks at `start_t`, all flags off; it satisfies the machine invariant |
| Emulator.Chip8.NewMemory | src/chip8.rs:54-99 | The zeroed 4096-byte array with the font and ROM copied in by two loops equals `Semantics.Memory(rom)` |
| Emulator.Chip8.constructor | src/chip8.rs:50-125 | The constructed object's abstract state is `Semantics.Init(rom, ...)` and the object is valid |
| Emulator.Chip8.Cycle | src/chip8.rs:128-436 | In-place `cycle` keeps the invariant and ends with the status and state of `Semantics.Cycle` |
| Emulator.Chip8.FetchExecute | src/chip8.rs:146-160 | The open gate: the `pc` panic, the two-byte fetch, `pc += 2`, execution and `last_instruction_t := t` agree with `Semantics.FetchExecute` |
| Emulator.Chip8.TickTimers | src/chip8.rs:134-143 | The timer block equals `Semantics.Tick` |
| Emulator.Chip8.Execute | src/chip8.rs:176-432 | The opcode dispatch agrees with `Semantics.Execute` |
| Emulator.Chip8.ExecuteFlow | src/chip8.rs:177-225 | Families 0x0___..0x7___ agree with `Semantics.ExecuteFlow` |
| Emulator.Chip8.ExecuteData | src/chip8.rs:226-432 | Families 0x8___..0xF___ agree with `Semantics.ExecuteData` |
| Emulator.Chip8.System | src/chip8.rs:177-195 | CLS / RET / other low nibbles equal `Semantics.System` |
| Emulator.Chip8.ClearScreen | src/chip8.rs:180-183 | Every display cell is 0 afterwards |
| Emulator.Chip8.Call | src/chip8.rs:199-203 | CALL agrees with `Semantics.Call`, halting on stack overflow |
| Emulator.Chip8.Arithmetic | src/chip8.rs:226-280 | The registers afterwards are `Semantics.Alu` of the registers before |
| Emulator.Chip8.Keys | src/chip8.rs:341-363 | EX9E/EXA1 equal `Semantics.Keys` |
| Emulator.Chip8.DrawSprite | src/chip8.rs:294-340 | DXYN agrees with `Semantics.DrawSprite`: VF cleared, coordinates wrapped, rows drawn or a halt on a read past memory |
| Emulator.Chip8.DrawRows | src/chip8.rs:298-338 | The row loop halts exactly when the visible rows reach past memory; otherwise display and VF are those of `Sprite.Draw`, nothing else changes, and the display stays 0/1 |
| Emulator.Chip8.DrawNextRow | src/chip8.rs:299-337 | One more row turns display and VF of `Draw(sprite)` into those of `Draw(sprite + [bits])` |
| Emulator.Chip8.DrawRow | src/chip8.rs:304-333 | The column loop with its right-edge `break` draws exactly `Cols(xpos)` pixels of one row |
| Emulator.Chip8.PlotPixel | src/chip8.rs:305-332 | One pixel: XOR under the mask bit, VF set on a collision, and when `cx` is the last column |
| Emulator.Chip8.Misc | src/chip8.rs:364-429 | The 0xF___ family agrees with `Semantics.Misc` |
| Emulator.Chip8.StoreBcd | src/chip8.rs:403-412 | FX33 agrees with `Semantics.StoreBcd` |
| Emulator.Chip8.StoreRegisters | src/chip8.rs:414-419 | FX55 agrees with `Semantics.StoreRegisters` |
| Emulator.Chip8.LoadRegisters | src/chip8.rs:421-426 | FX65 agrees with `Semantics.LoadRegisters` |
| Instruction.Word | src/chip8.rs:151 | The fetched word has the first byte as high byte and the second as low byte |
| Instruction.Decode | src/chip8.rs:155-160 | The fields recompose the word: `code` is a multiple of 0x1000, and `nn`, `nnn` are the low 8 and 12 bits built from x, y, n |
| Instruction.DecodeEncode | src/chip8.rs:155-160 | Decoding an encoded instruction recovers its family and every nibble |
| Instruction.EncodeDecode | src/chip8.rs:155-160 | Every 16-bit word is the encoding of its decoded fields |
| Instruction.Bcd | src/chip8.rs:405-408 | FX33's digits are decimal digits that recompose to the byte |
| Instruction.BcdUnique | src/chip8.rs:405-408 | They are the only such digits |
| Bytes.Truncate8 | src/chip8.rs:225 | `as u8` keeps values below 256 and is congruent modulo 256 |
| Bytes.Truncate16 | src/chip8.rs:399 | `u16` wrap-around keeps values below 65536 and is congruent modulo 65536 |
| Bytes.TopBitMask | src/chip8.rs:274 | `v & 0x80` is 0x80 exactly when `v >= 0x80`, else 0 |
| Bytes.LowBitMask | src/chip8.rs:260 | `v & 0x01` is `v % 2` |
| Sprite.MaskSelectsBit | src/chip8.rs:308-316 | `bits & (1 << 7 - col) > 0` holds exactly when bit `7 - col` of the sprite byte is set |
| Sprite.Cols | src/chip8.rs:304-332 | The pixels drawn per row: 8, or up to the right edge, never past it |
| Sprite.Rows | src/chip8.rs:298-337 | The rows drawn: N, or up to the bottom edge, never past it |
| Sprite.PlotRowCells | src/chip8.rs:304-333 | After one row, a cell is flipped exactly when it lies in the row's span under a set bit; VF records a lit cell turned off |
| Sprite.PlotRowsCells | src/chip8.rs:298-338 | After k rows, the same holds over the first k rows |
| Sprite.DrawCells | src/chip8.rs:294-340 | A draw flips exactly the cells under set sprite bits inside the clipped rectangle, and reports a collision exactly when one of them was on |
| Sprite.DrawStaysInRectangle | src/chip8.rs:298-337 | No cell outside the clipped sprite rectangle changes |
| Sprite.DrawKeepsBinary | src/chip8.rs:312-325 | A 0/1 display stays 0/1 |
| Sprite.DrawTwice | src/chip8.rs:312-325 | Drawing the same sprite twice restores the display |
| Semantics.SpriteAt | src/chip8.rs:300 | The sprite rows are the bytes at `I`, `I + 1`, ... |
| Properties.DrawSpritePreservesValid | src/chip8.rs:294-340 | DXYN keeps the machine invariant |
| Properties.ExecuteFlowPreservesValid | src/chip8.rs:177-225 | Families 0x0___..0x7___ keep the machine invariant |
| Properties.ExecuteDataPreservesValid | src/chip8.rs:226-432 | Families 0x8___..0xF___ keep the machine invariant |
| Properties.MiscPreservesValid | src/chip8.rs:364-429 | The 0xF___ family keeps the machine invariant |
| Properties.ExecutePreservesValid | src/chip8.rs:176-432 | Every instruction keeps the sizes, the stack top below 64 and the 0/1 display |
| Properties.CyclePreservesValid | src/chip8.rs:128-436 | A cycle keeps the invariant and moves both recorded times forward, never past `t` |
| Properties.FetchExecutePreservesValid | src/chip8.rs:146-434 | The open gate keeps the invariant and records a time no later than `t` |
| Properties.ExecuteKeepsClock | src/chip8.rs:176-432 | No instruction touches the recorded times |
| Properties.TickCountsDown | src/chip8.rs:134-143 | Each timer drops by at most one, only after a full period and only from above 0; the beep flag follows the sound timer when it moves and keeps its value otherwise; the tick time becomes `t` exactly when the gate opens; nothing else changes |
| Properties.TimersRunAtMostSixtyHertz | src/chip8.rs:134-143 | Over any run of monotonic clock readings, each unit lost by a timer costs more than 16 666 666 ns |
| Properties.ClosedGateOnlyTicks | src/chip8.rs:128-146 | With the instruction gate closed, a cycle only clears the display flags and runs the timers |
| Properties.OpenGateFetches | src/chip8.rs:146-152 | With the gate open, `pc` at or past 4096 halts, `pc` on the last byte halts the fetch, and a cycle that keeps running records `t` |
| Properties.AddSplitsCarry | src/chip8.rs:237-246 | 8XY4, x ≠ F: `Vx' + 256 * VF' = Vx + Vy`, other registers unchanged |
| Properties.AddIntoFlag | src/chip8.rs:237-246 | 8FY4: the wrapped sum overwrites the carry |
| Properties.SubSetsNoBorrow | src/chip8.rs:248-257 | 8XY5, x, y ≠ F: VF = 1 exactly when Vx > Vy; Vx' = Vx − Vy mod 256; others unchanged |
| Properties.SubExamples | src/chip8.rs:248-257 | 5 − 10 gives 251 with VF 0; Vx − Vx gives 0 with VF 0 |
| Properties.SubReadsNewFlag | src/chip8.rs:248-257 | 8XF5 subtracts the freshly written VF, not the old one |
| Properties.ShiftRightKeepsLowBit | src/chip8.rs:259-262 | 8XY6, x ≠ F: `2 * Vx' + VF' = Vx` with VF' ≤ 1 |
| Properties.ReverseSubSetsNoBorrow | src/chip8.rs:264-271 | 8XY7, x, y ≠ F: VF = 1 exactly when Vy > Vx and 0 otherwise; Vx' = Vy − Vx mod 256; others unchanged |
| Properties.ShiftLeftKeepsTopBit | src/chip8.rs:273-276 | 8XYE, x ≠ F: VF' is 0x80 or 0 by the top bit; `Vx' + 2 * VF' = 2 * Vx` |
| Properties.AluFrame | src/chip8.rs:226-280 | 8XY0..8XY3 change only Vx; unnamed sub-codes change nothing |
| Properties.CallThenReturn | src/chip8.rs:186-203 | CALL pushes the address of the next instruction and jumps; a RET right after returns there with the stack top restored; the slots below stay |
| Properties.CallThenLaterReturn | src/chip8.rs:186-203 | After a subroutine body that leaves the stack balanced, RET returns after the call, pops the frame and changes nothing else |
| Properties.CallOverflow | src/chip8.rs:199-203 | CALL halts exactly when the stack top is at slot 63 |
| Properties.StackBottomNeverWritten | src/chip8.rs:199-203 | No instruction writes stack slot 0 |
| Properties.ExecuteDataKeepsStack | src/chip8.rs:226-432 | Families 0x8___..0xF___ leave stack and stack top alone |
| Properties.MiscFrame | src/chip8.rs:364-429 | The 0xF___ family changes only registers, memory, timers and I |
| Properties.DrawSpriteFrame | src/chip8.rs:294-340 | DXYN reads Y as 0 when it is F (VF is cleared first); it halts exactly when the rows to draw reach past memory; otherwise only VF (0 or 1) among the registers, the display and the update flag change |
| Properties.DrawSpriteFlipsAndReports | src/chip8.rs:294-340 | DXYN flips exactly the cells under set bits; VF = 1 exactly when a lit cell is turned off; no other register changes, and only display, VF and the update flag change |
| Properties.DrawSpriteTwiceRestores | src/chip8.rs:294-340 | The same DXYN twice restores the display |
| Properties.StoreBcdDigits | src/chip8.rs:403-412 | FX33 halts exactly when I + 2 ≥ 4096; otherwise the three cells at I hold decimal digits recomposing Vx, and nothing else changes |
| Properties.BcdExamples | src/chip8.rs:405-408 | 255 → 2,5,5; 0 → 0,0,0; 100 → 1,0,0 |
| Properties.StoreThenLoadRoundTrip | src/chip8.rs:414-426 | FX55 then FX65 (same X and I) gives back the registers; memory holds V0..VX at I |
| Properties.LoadThenStoreKeepsMemory | src/chip8.rs:414-426 | FX65 then FX55 leaves memory unchanged |
| Properties.TransferBounds | src/chip8.rs:414-426 | FX55 / FX65 halt exactly when I + X ≥ 4096 |
| Properties.IndexArithmetic | src/chip8.rs:399-401 | FX1E wraps I at 16 bits; FX29 points I at the digit's 5-byte glyph inside the font |
| Properties.KeyWaitThenGlyph | src/chip8.rs:369-401 | FX0A halts exactly on Escape, with the state unchanged; otherwise only Vx changes, to the key pressed, and FX29 then points I at that digit's glyph inside the font |
| Properties.SystemLowNibbleOnly | src/chip8.rs:177-195 | 0x0XY0 clears the screen; 0x0XYE jumps to the address on top of the stack; 0x0XYN with N ∉ {0, E} changes nothing |
| Properties.SkipsAreComplementary | src/chip8.rs:205-286 | Exactly one of 3XNN/4XNN skips, exactly one of 5XY_/9XY_; 5XYN ignores N |
| Properties.ExecuteDisplayFlags | src/chip8.rs:176-432 | Starting with both display flags lowered, a running instruction raises the clear flag exactly for 0x0XY0 and the update flag exactly for DXYN |
| Properties.FetchExecuteDisplayFlags | src/chip8.rs:146-434 | The same for the instruction fetched at `pc` by the open gate |
| Properties.CycleDisplayFlags | src/chip8.rs:128-434 | A running cycle leaves both flags lowered when the gate is closed, and otherwise raises the clear flag exactly for a fetched CLS and the update flag exactly for a fetched DXYN |
| Properties.OnlyFewInstructionsHalt | src/chip8.rs:176-432 | Only CALL, DXYN and 0xF___ can halt, and a halted step reports the state it started from |
| Properties.InitFetchesRom | src/chip8.rs:97-99 | The first fetch of a new machine reads the first two ROM bytes |

## Left out

- Input, events and audio: SDL events, `keyboard::map`/`unmap` (`src/keyboard.rs` is not part
  of this model), `wait_event` and `rand::random` become the `Inputs` of a cycle. The display,
  the main loop, the debug tracing of `src/debug.rs` and the `debug_mode` field have no effect
  on the state and are not modelled.
- Semantics.Init and Emulator.Chip8.constructor: a ROM longer than 3584 bytes makes `new` panic
  in `copy_from_slice`. The model requires that the ROM fits instead of modelling that panic.
- Emulator.Chip8.Cycle: after a halt (a panic or `process::exit`), only the status is
  constrained. The process is gone, so writes made before the panic (for example the first
  rows of a DXYN that runs off memory) are not described.
- The clock is an unbounded `nat` and must be monotonic (`t` is never earlier than the
  recorded times). In the source, an earlier `t` makes the `u128` subtraction underflow.
- Emulator.Chip8.Call: the return address is stored as `pc as u16`. That truncation is written
  out, but it never matters, because `pc` is below 4098 when CALL runs.
- Bytes.Truncate16: FX1E is modelled with release-build `u16` wrap-around. A debug build would
  panic on the overflow instead.
- Semantics.Alu: 8XY7's `u8` subtraction `Vy - Vx` is modelled with release-build wrap-around
  (`Bytes.Truncate8`). A debug build would panic when Vx > Vy.
- `pc` is an unbounded `nat`, as the source's `usize`. BNNN can set it to 0x0FFF + 255 = 4350,
  and the next fetch then halts.
- The split of `Execute` and `FetchExecute` into smaller functions and methods does not exist
  in the source. It keeps each proof small.
