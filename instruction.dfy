/** Fetching and decoding one 16-bit instruction word (src/chip8.rs, `cycle`). */
module Instruction {
  import opened Bytes

  /** The operand fields of an instruction word `0xIXYN`. `code` keeps the opcode
      family in place (`instr & 0xF000`), as the dispatch compares against 0x1000, 0x2000, ... */
  datatype Fields = Fields(code: u16, x: nibble, y: nibble, n: nibble, nn: u8, nnn: u16)

  /** The word stored big-endian at two consecutive bytes: `(hi as u16) << 8 | lo as u16`. */
  function Word(hi: u8, lo: u8): (w: u16)
    ensures w / 0x100 == hi && w % 0x100 == lo
  {
    hi * 0x100 + lo
  }

  /** The masks and shifts of the decoder, written as divisions and remainders:
      `instr & 0xF000`, `(instr & 0x0F00) >> 8`, `(instr & 0x00F0) >> 4`,
      `instr & 0x000F`, `instr & 0x00FF`, `instr & 0x0FFF`. */
  function Decode(w: u16): (f: Fields)
    ensures f.code % 0x1000 == 0 && f.nnn < 0x1000
    ensures w == f.code + f.x * 0x100 + f.y * 0x10 + f.n
    ensures f.nn == f.y * 0x10 + f.n && f.nnn == f.x * 0x100 + f.nn
  {
    var hi, lo := w / 0x100, w % 0x100;
    assert w % 0x1000 == hi % 0x10 * 0x100 + lo && w / 0x1000 == hi / 0x10;
    Fields(w / 0x1000 * 0x1000, hi % 0x10, lo / 0x10, lo % 0x10, lo, w % 0x1000)
  }

  /** The word with opcode family `op` and nibbles `x`, `y`, `n`: the assembler's view. */
  function Encode(op: nibble, x: nibble, y: nibble, n: nibble): (w: u16)
    ensures w / 0x1000 == op
  {
    op * 0x1000 + x * 0x100 + y * 0x10 + n
  }

  /** Decoding recovers every field that was encoded. */
  lemma DecodeEncode(op: nibble, x: nibble, y: nibble, n: nibble)
    ensures Decode(Encode(op, x, y, n)) == Fields(op * 0x1000, x, y, n, y * 0x10 + n, x * 0x100 + y * 0x10 + n)
  {
    var w := Encode(op, x, y, n);
    DivModUnique(w, 0x1000, op, x * 0x100 + y * 0x10 + n);
    DivModUnique(w, 0x100, op * 0x10 + x, y * 0x10 + n);
    DivModUnique(op * 0x10 + x, 0x10, op, x);
    DivModUnique(y * 0x10 + n, 0x10, y, n);
  }

  /** Every word is the encoding of its own decoded fields. */
  lemma EncodeDecode(w: u16)
    ensures var f := Decode(w); Encode(f.code / 0x1000, f.x, f.y, f.n) == w
  {
  }

  /** The three binary-coded-decimal digits FX33 stores. */
  datatype Digits = Digits(hundreds: u8, tens: u8, ones: u8)

  /** FX33's digit computation: `h = v / 100`, `t = (v - h * 100) / 10`, `o = v - h * 100 - t * 10`.
      The digits are decimal digits and recompose to `v`. */
  function Bcd(v: u8): (d: Digits)
    ensures d.hundreds <= 2 && d.tens < 10 && d.ones < 10
    ensures 100 * d.hundreds + 10 * d.tens + d.ones == v
  {
    var h := v / 100;
    var t := (v - h * 100) / 10;
    Digits(h, t, v - h * 100 - t * 10)
  }

  /** The decimal digits of a byte are unique: BCD is a faithful encoding. */
  lemma BcdUnique(v: u8, d: Digits)
    requires d.tens < 10 && d.ones < 10
    requires 100 * d.hundreds + 10 * d.tens + d.ones == v
    ensures d == Bcd(v)
  {
    var e := Bcd(v);
    assert 100 * (d.hundreds - e.hundreds) + 10 * (d.tens - e.tens) + (d.ones - e.ones) == 0;
    assert (d.ones - e.ones) % 10 == 0;
  }
}
