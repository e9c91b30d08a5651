/** The DXYN sprite draw on the 64 x 32 framebuffer (src/chip8.rs, `cycle`, family 0xD000).

    The draw is specified as the fold the source's nested loops perform, one cell at a
    time, and then characterised cell by cell: which cells change, how, and when the
    collision flag is raised. */
module Sprite {
  import opened Bytes

  const DISPLAY_WIDTH: nat := 64
  const DISPLAY_HEIGHT: nat := 32
  const DISPLAY_LEN: nat := DISPLAY_WIDTH * DISPLAY_HEIGHT

  /** A framebuffer: one cell per pixel, row-major, 0 for unlit. */
  predicate IsFrame(cells: seq<u8>) {
    |cells| == DISPLAY_LEN
  }

  /** Every cell is 0 or 1, as the renderer expects. */
  predicate Binary(cells: seq<u8>) {
    forall i :: 0 <= i < |cells| ==> cells[i] <= 1
  }

  /** `0x01 << 7 - col`: the mask of column `col`, most significant bit first. */
  function Mask(col: nat): u8
    requires col < 8
  {
    [0x80, 0x40, 0x20, 0x10, 0x08, 0x04, 0x02, 0x01][col]
  }

  /** Whether the sprite row `bits` has column `col` set: bit `7 - col`, most significant first. */
  predicate SpriteBit(bits: u8, col: nat)
    requires col < 8
  {
    (bits / Mask(col)) % 2 == 1
  }

  /** The emulator's test `bits & mask > 0` selects exactly that bit. */
  lemma MaskSelectsBit(bits: u8, col: nat)
    requires col < 8
    ensures (And8(bits, Mask(col)) > 0) == SpriteBit(bits, col)
  {
    if col == 0 {
      assert (And8(bits, 0x80) > 0) == ((bits / 128) % 2 == 1);
    } else if col == 1 {
      assert (And8(bits, 0x40) > 0) == ((bits / 64) % 2 == 1);
    } else if col == 2 {
      assert (And8(bits, 0x20) > 0) == ((bits / 32) % 2 == 1);
    } else if col == 3 {
      assert (And8(bits, 0x10) > 0) == ((bits / 16) % 2 == 1);
    } else if col == 4 {
      assert (And8(bits, 0x08) > 0) == ((bits / 8) % 2 == 1);
    } else if col == 5 {
      assert (And8(bits, 0x04) > 0) == ((bits / 4) % 2 == 1);
    } else if col == 6 {
      assert (And8(bits, 0x02) > 0) == ((bits / 2) % 2 == 1);
    } else {
      assert (And8(bits, 0x01) > 0) == (bits % 2 == 1);
    }
  }

  /** The XOR of a set sprite bit into a cell: a lit cell goes dark, anything else lights. */
  function Flip(v: u8): u8 {
    if v > 0 then 0 else 1
  }

  /** The number of columns a sprite row touches before the right-edge `break`. */
  function Cols(xpos: nat): (k: nat)
    requires xpos < DISPLAY_WIDTH
    ensures 1 <= k <= 8 && xpos + k <= DISPLAY_WIDTH
    ensures k < 8 ==> xpos + k == DISPLAY_WIDTH
  {
    if xpos + 8 <= DISPLAY_WIDTH then 8 else DISPLAY_WIDTH - xpos
  }

  /** Column `col` of a visible row stays on screen, and the right-edge `break` comes exactly
      after the last visible column. */
  lemma ColsStep(xpos: nat, col: nat)
    requires xpos < DISPLAY_WIDTH && col < Cols(xpos)
    ensures xpos + col < DISPLAY_WIDTH
    ensures xpos + col == DISPLAY_WIDTH - 1 ==> col + 1 == Cols(xpos)
    ensures xpos + col < DISPLAY_WIDTH - 1 ==> col + 1 < Cols(xpos) || col + 1 == 8
  {
  }

  /** The number of sprite rows drawn before the bottom-edge `break`. */
  function Rows(ypos: nat, n: nat): (k: nat)
    requires ypos < DISPLAY_HEIGHT
    ensures k <= n && ypos + k <= DISPLAY_HEIGHT
    ensures k < n ==> ypos + k == DISPLAY_HEIGHT
  {
    if ypos + n <= DISPLAY_HEIGHT then n else DISPLAY_HEIGHT - ypos
  }

  /** The framebuffer during a draw, with the collision flag raised so far. */
  datatype Canvas = Canvas(cells: seq<u8>, collision: bool)

  /** One step of the inner loop: column `col` of row `bits`, at cell `i`. */
  function PlotCell(c: Canvas, bits: u8, col: nat, i: nat): Canvas
    requires col < 8 && i < |c.cells|
  {
    if SpriteBit(bits, col) then
      if c.cells[i] > 0 then Canvas(c.cells[i := 0], true) else Canvas(c.cells[i := 1], c.collision)
    else c
  }

  /** The first `k` columns of sprite row `bits` drawn at display row `cy` from column `xpos`. */
  function PlotRow(c: Canvas, bits: u8, xpos: nat, cy: nat, k: nat): Canvas
    requires IsFrame(c.cells) && xpos < DISPLAY_WIDTH && cy < DISPLAY_HEIGHT && k <= Cols(xpos)
    ensures IsFrame(PlotRow(c, bits, xpos, cy, k).cells)
  {
    if k == 0 then c
    else PlotCell(PlotRow(c, bits, xpos, cy, k - 1), bits, k - 1, cy * DISPLAY_WIDTH + xpos + k - 1)
  }

  /** The first `k` rows of `sprite` drawn with its top-left corner at (`xpos`, `ypos`). */
  function PlotRows(c: Canvas, sprite: seq<u8>, xpos: nat, ypos: nat, k: nat): Canvas
    requires IsFrame(c.cells) && xpos < DISPLAY_WIDTH && ypos + |sprite| <= DISPLAY_HEIGHT
    requires k <= |sprite|
    ensures IsFrame(PlotRows(c, sprite, xpos, ypos, k).cells)
  {
    if k == 0 then c
    else PlotRow(PlotRows(c, sprite, xpos, ypos, k - 1), sprite[k - 1], xpos, ypos + k - 1, Cols(xpos))
  }

  /** Rows past `k` play no part in the first `k` rows of a draw. */
  lemma {:induction false} PlotRowsPrefix(c: Canvas, s: seq<u8>, t: seq<u8>, xpos: nat, ypos: nat, k: nat)
    requires IsFrame(c.cells) && xpos < DISPLAY_WIDTH
    requires ypos + |s| <= DISPLAY_HEIGHT && ypos + |t| <= DISPLAY_HEIGHT && k <= |s| && k <= |t|
    requires s[..k] == t[..k]
    ensures PlotRows(c, s, xpos, ypos, k) == PlotRows(c, t, xpos, ypos, k)
  {
    if k > 0 {
      assert s[..k - 1] == t[..k - 1] && s[k - 1] == t[k - 1] by {
        assert s[..k - 1] == s[..k][..k - 1];
        assert t[..k - 1] == t[..k][..k - 1];
        assert s[k - 1] == s[..k][k - 1];
        assert t[k - 1] == t[..k][k - 1];
      }
      PlotRowsPrefix(c, s, t, xpos, ypos, k - 1);
    }
  }

  /** Drawing one more sprite row is drawing the shorter sprite, then that row in full. */
  lemma DrawOneMoreRow(cells: seq<u8>, sprite: seq<u8>, bits: u8, xpos: nat, ypos: nat)
    requires IsFrame(cells) && xpos < DISPLAY_WIDTH && ypos + |sprite| < DISPLAY_HEIGHT
    ensures Draw(cells, sprite + [bits], xpos, ypos)
         == PlotRow(Draw(cells, sprite, xpos, ypos), bits, xpos, ypos + |sprite|, Cols(xpos))
  {
    var k := |sprite|;
    assert (sprite + [bits])[..k] == sprite[..k];
    PlotRowsPrefix(Canvas(cells, false), sprite + [bits], sprite, xpos, ypos, k);
  }

  /** The whole draw of the rows `sprite` (already cut at the bottom edge), collision cleared first. */
  function Draw(cells: seq<u8>, sprite: seq<u8>, xpos: nat, ypos: nat): Canvas
    requires IsFrame(cells) && xpos < DISPLAY_WIDTH && ypos + |sprite| <= DISPLAY_HEIGHT
  {
    PlotRows(Canvas(cells, false), sprite, xpos, ypos, |sprite|)
  }

  /** Cell `i` lies under a set bit of the first `k` rows of the sprite. Columns past the right
      edge are excluded because `i % DISPLAY_WIDTH` never reaches them. */
  predicate LitUpTo(sprite: seq<u8>, xpos: nat, ypos: nat, k: nat, i: nat)
    requires k <= |sprite|
  {
    var y, x := i / DISPLAY_WIDTH, i % DISPLAY_WIDTH;
    ypos <= y < ypos + k && xpos <= x < xpos + 8 && SpriteBit(sprite[y - ypos], x - xpos)
  }

  /** Cell `i` lies under a set bit of the sprite. */
  predicate Lit(sprite: seq<u8>, xpos: nat, ypos: nat, i: nat) {
    LitUpTo(sprite, xpos, ypos, |sprite|, i)
  }

  /** Cell `i` lies under a set bit among the first `k` columns of row `bits` at display row `cy`. */
  predicate InRow(bits: u8, xpos: nat, cy: nat, k: nat, i: nat)
    requires k <= 8
  {
    var y, x := i / DISPLAY_WIDTH, i % DISPLAY_WIDTH;
    y == cy && xpos <= x < xpos + k && SpriteBit(bits, x - xpos)
  }

  lemma CellIndex(y: nat, x: nat)
    requires x < DISPLAY_WIDTH
    ensures (y * DISPLAY_WIDTH + x) / DISPLAY_WIDTH == y && (y * DISPLAY_WIDTH + x) % DISPLAY_WIDTH == x
  {
  }

  /** Widening a row by one column adds exactly the cell of that column, if its bit is set. */
  lemma InRowStep(bits: u8, xpos: nat, cy: nat, k: nat, i: nat)
    requires 1 <= k <= 8 && xpos + k <= DISPLAY_WIDTH
    ensures InRow(bits, xpos, cy, k, i) <==>
      InRow(bits, xpos, cy, k - 1, i) || (i == cy * DISPLAY_WIDTH + xpos + k - 1 && SpriteBit(bits, k - 1))
  {
    CellIndex(cy, xpos + k - 1);
    if i / DISPLAY_WIDTH == cy && i % DISPLAY_WIDTH == xpos + k - 1 {
      assert i == i / DISPLAY_WIDTH * DISPLAY_WIDTH + i % DISPLAY_WIDTH;
    }
  }

  /** Drawing part of a row flips exactly the cells under its set bits and raises the
      collision flag exactly when one of them was lit. */
  lemma {:induction false} PlotRowCells(c: Canvas, bits: u8, xpos: nat, cy: nat, k: nat)
    requires IsFrame(c.cells) && xpos < DISPLAY_WIDTH && cy < DISPLAY_HEIGHT && k <= Cols(xpos)
    ensures var r := PlotRow(c, bits, xpos, cy, k);
      && (forall i :: 0 <= i < DISPLAY_LEN ==>
            r.cells[i] == if InRow(bits, xpos, cy, k, i) then Flip(c.cells[i]) else c.cells[i])
      && (r.collision <==> c.collision || exists i :: 0 <= i < DISPLAY_LEN && InRow(bits, xpos, cy, k, i) && c.cells[i] > 0)
  {
    if k > 0 {
      PlotRowCells(c, bits, xpos, cy, k - 1);
      var p := PlotRow(c, bits, xpos, cy, k - 1);
      var r := PlotRow(c, bits, xpos, cy, k);
      var j := cy * DISPLAY_WIDTH + xpos + k - 1;
      InRowStep(bits, xpos, cy, k, j);
      CellIndex(cy, xpos + k - 1);
      assert p.cells[j] == c.cells[j];
      assert r == PlotCell(p, bits, k - 1, j);
      forall i | 0 <= i < DISPLAY_LEN
        ensures r.cells[i] == if InRow(bits, xpos, cy, k, i) then Flip(c.cells[i]) else c.cells[i]
      {
        InRowStep(bits, xpos, cy, k, i);
      }
      CollisionStep(c, p, r, bits, xpos, cy, k, j);
    }
  }

  /** The collision half of the induction step of PlotRowCells. */
  lemma CollisionStep(c: Canvas, p: Canvas, r: Canvas, bits: u8, xpos: nat, cy: nat, k: nat, j: nat)
    requires IsFrame(c.cells) && IsFrame(p.cells) && 1 <= k <= 8 && xpos + k <= DISPLAY_WIDTH
    requires j == cy * DISPLAY_WIDTH + xpos + k - 1 && j < DISPLAY_LEN && p.cells[j] == c.cells[j]
    requires r == PlotCell(p, bits, k - 1, j)
    requires p.collision <==> c.collision || exists i :: 0 <= i < DISPLAY_LEN && InRow(bits, xpos, cy, k - 1, i) && c.cells[i] > 0
    ensures r.collision <==> c.collision || exists i :: 0 <= i < DISPLAY_LEN && InRow(bits, xpos, cy, k, i) && c.cells[i] > 0
  {
    InRowStep(bits, xpos, cy, k, j);
    if r.collision && !p.collision {
      assert InRow(bits, xpos, cy, k, j) && c.cells[j] > 0;
    }
    if exists i :: 0 <= i < DISPLAY_LEN && InRow(bits, xpos, cy, k, i) && c.cells[i] > 0 {
      var i :| 0 <= i < DISPLAY_LEN && InRow(bits, xpos, cy, k, i) && c.cells[i] > 0;
      InRowStep(bits, xpos, cy, k, i);
      if i != j {
        assert InRow(bits, xpos, cy, k - 1, i);
      }
    }
  }

  /** Adding row `k - 1` to the draw adds exactly the lit cells of that row, which no earlier row covers. */
  lemma LitStep(sprite: seq<u8>, xpos: nat, ypos: nat, k: nat, i: nat)
    requires xpos < DISPLAY_WIDTH && 1 <= k <= |sprite|
    ensures LitUpTo(sprite, xpos, ypos, k, i) <==>
      LitUpTo(sprite, xpos, ypos, k - 1, i) || InRow(sprite[k - 1], xpos, ypos + k - 1, Cols(xpos), i)
    ensures !(LitUpTo(sprite, xpos, ypos, k - 1, i) && InRow(sprite[k - 1], xpos, ypos + k - 1, Cols(xpos), i))
  {
  }

  /** Drawing the first `k` rows flips exactly the cells under the set bits of those rows and
      raises the collision flag exactly when one of them was lit. */
  lemma {:induction false} PlotRowsCells(d: seq<u8>, sprite: seq<u8>, xpos: nat, ypos: nat, k: nat)
    requires IsFrame(d) && xpos < DISPLAY_WIDTH && ypos + |sprite| <= DISPLAY_HEIGHT && k <= |sprite|
    ensures var r := PlotRows(Canvas(d, false), sprite, xpos, ypos, k);
      && (forall i :: 0 <= i < DISPLAY_LEN ==>
            r.cells[i] == if LitUpTo(sprite, xpos, ypos, k, i) then Flip(d[i]) else d[i])
      && (r.collision <==> exists i :: 0 <= i < DISPLAY_LEN && LitUpTo(sprite, xpos, ypos, k, i) && d[i] > 0)
  {
    if k > 0 {
      PlotRowsCells(d, sprite, xpos, ypos, k - 1);
      var p := PlotRows(Canvas(d, false), sprite, xpos, ypos, k - 1);
      var cy := ypos + k - 1;
      var r := PlotRows(Canvas(d, false), sprite, xpos, ypos, k);
      assert r == PlotRow(p, sprite[k - 1], xpos, cy, Cols(xpos));
      PlotRowCells(p, sprite[k - 1], xpos, cy, Cols(xpos));
      forall i | 0 <= i < DISPLAY_LEN
        ensures r.cells[i] == if LitUpTo(sprite, xpos, ypos, k, i) then Flip(d[i]) else d[i]
      {
        LitStep(sprite, xpos, ypos, k, i);
      }
      RowsCollisionStep(d, p, r, sprite, xpos, ypos, k);
    }
  }

  /** The collision half of the induction step of PlotRowsCells. */
  lemma RowsCollisionStep(d: seq<u8>, p: Canvas, r: Canvas, sprite: seq<u8>, xpos: nat, ypos: nat, k: nat)
    requires IsFrame(d) && IsFrame(p.cells) && xpos < DISPLAY_WIDTH && ypos + |sprite| <= DISPLAY_HEIGHT
    requires 1 <= k <= |sprite|
    requires forall i :: 0 <= i < DISPLAY_LEN ==>
      p.cells[i] == if LitUpTo(sprite, xpos, ypos, k - 1, i) then Flip(d[i]) else d[i]
    requires p.collision <==> exists i :: 0 <= i < DISPLAY_LEN && LitUpTo(sprite, xpos, ypos, k - 1, i) && d[i] > 0
    requires var bits, cy := sprite[k - 1], ypos + k - 1;
      r.collision <==> p.collision || exists i :: 0 <= i < DISPLAY_LEN && InRow(bits, xpos, cy, Cols(xpos), i) && p.cells[i] > 0
    ensures r.collision <==> exists i :: 0 <= i < DISPLAY_LEN && LitUpTo(sprite, xpos, ypos, k, i) && d[i] > 0
  {
    var bits, cy := sprite[k - 1], ypos + k - 1;
    if exists i :: 0 <= i < DISPLAY_LEN && LitUpTo(sprite, xpos, ypos, k, i) && d[i] > 0 {
      var i :| 0 <= i < DISPLAY_LEN && LitUpTo(sprite, xpos, ypos, k, i) && d[i] > 0;
      LitStep(sprite, xpos, ypos, k, i);
      if !LitUpTo(sprite, xpos, ypos, k - 1, i) {
        assert InRow(bits, xpos, cy, Cols(xpos), i) && p.cells[i] > 0;
      }
    }
    if r.collision && !p.collision {
      var i :| 0 <= i < DISPLAY_LEN && InRow(bits, xpos, cy, Cols(xpos), i) && p.cells[i] > 0;
      LitStep(sprite, xpos, ypos, k, i);
      assert LitUpTo(sprite, xpos, ypos, k, i) && d[i] > 0;
    }
  }

  /** The meaning of a draw: every cell under a set sprite bit is flipped, no other cell
      changes, and the collision flag says whether a lit cell went dark. */
  lemma DrawCells(d: seq<u8>, sprite: seq<u8>, xpos: nat, ypos: nat)
    requires IsFrame(d) && xpos < DISPLAY_WIDTH && ypos + |sprite| <= DISPLAY_HEIGHT
    ensures var r := Draw(d, sprite, xpos, ypos);
      && IsFrame(r.cells)
      && (forall i :: 0 <= i < DISPLAY_LEN ==> r.cells[i] == if Lit(sprite, xpos, ypos, i) then Flip(d[i]) else d[i])
      && (r.collision <==> exists i :: 0 <= i < DISPLAY_LEN && Lit(sprite, xpos, ypos, i) && d[i] > 0)
  {
    PlotRowsCells(d, sprite, xpos, ypos, |sprite|);
  }

  /** Only cells inside the clipped rectangle rows `ypos .. ypos + |sprite| - 1`, columns
      `xpos .. min(xpos + 7, 63)` can change. */
  lemma DrawStaysInRectangle(d: seq<u8>, sprite: seq<u8>, xpos: nat, ypos: nat, i: nat)
    requires IsFrame(d) && xpos < DISPLAY_WIDTH && ypos + |sprite| <= DISPLAY_HEIGHT && i < DISPLAY_LEN
    requires Draw(d, sprite, xpos, ypos).cells[i] != d[i]
    ensures ypos <= i / DISPLAY_WIDTH < ypos + |sprite|
    ensures xpos <= i % DISPLAY_WIDTH < xpos + Cols(xpos)
  {
    DrawCells(d, sprite, xpos, ypos);
  }

  /** A draw keeps every cell 0 or 1. */
  lemma DrawKeepsBinary(d: seq<u8>, sprite: seq<u8>, xpos: nat, ypos: nat)
    requires IsFrame(d) && Binary(d) && xpos < DISPLAY_WIDTH && ypos + |sprite| <= DISPLAY_HEIGHT
    ensures Binary(Draw(d, sprite, xpos, ypos).cells)
  {
    DrawCells(d, sprite, xpos, ypos);
  }

  /** Drawing the same sprite twice at the same place restores a 0/1 framebuffer, and the
      second draw reports a collision exactly when the first one lit some cell. */
  lemma DrawTwice(d: seq<u8>, sprite: seq<u8>, xpos: nat, ypos: nat)
    requires IsFrame(d) && Binary(d) && xpos < DISPLAY_WIDTH && ypos + |sprite| <= DISPLAY_HEIGHT
    ensures var once := Draw(d, sprite, xpos, ypos);
      && Draw(once.cells, sprite, xpos, ypos).cells == d
      && (Draw(once.cells, sprite, xpos, ypos).collision <==>
            exists i :: 0 <= i < DISPLAY_LEN && Lit(sprite, xpos, ypos, i) && d[i] == 0)
  {
    var once := Draw(d, sprite, xpos, ypos);
    DrawCells(d, sprite, xpos, ypos);
    DrawCells(once.cells, sprite, xpos, ypos);
    var twice := Draw(once.cells, sprite, xpos, ypos);
    assert |twice.cells| == |d|;
    forall i | 0 <= i < DISPLAY_LEN ensures twice.cells[i] == d[i] {
    }
    if twice.collision {
      var i :| 0 <= i < DISPLAY_LEN && Lit(sprite, xpos, ypos, i) && once.cells[i] > 0;
      assert d[i] == 0;
    }
    if exists i :: 0 <= i < DISPLAY_LEN && Lit(sprite, xpos, ypos, i) && d[i] == 0 {
      var i :| 0 <= i < DISPLAY_LEN && Lit(sprite, xpos, ypos, i) && d[i] == 0;
      assert once.cells[i] > 0;
    }
  }
}
