/** The 80x25 VGA text screen (src/screens.cpp): the cell buffer, the cursor,
    clearing and scrolling. */
module Screens {

  const Width := 80
  const Height := 25
  const ScreenCells := 2000
  /** VGA_COLOR_LIGHT_GREY, the default attribute. */
  const DefaultColor := 7

  /** A text cell: attribute in the high byte, character in the low byte. */
  type Cell = w: int | 0 <= w < 0x1_0000

  /** (VGA_DEFAULT_COLOR << 8) | ' ' */
  const Blank: Cell := 0x0720

  /** The cells after scroll_screen: rows 1..24 move up one row, row 24
      becomes blank, and cells past the screen are kept. */
  function Scrolled(cells: seq<Cell>): (r: seq<Cell>)
    requires |cells| >= ScreenCells
    ensures |r| == |cells|
  {
    cells[Width..ScreenCells] + seq(Width, _ => Blank) + cells[ScreenCells..]
  }

  /** Index of the cell at column x of row y. */
  function CellIndex(y: nat, x: nat): nat
  {
    y * Width + x
  }

  /** Scrolled, cell by cell: row y takes old row y + 1 for y < 24, the last
      row is blank, everything past the screen is untouched. */
  lemma ScrolledCells(cells: seq<Cell>)
    requires |cells| >= ScreenCells
    ensures forall y, x :: 0 <= y < Height - 1 && 0 <= x < Width ==>
              Scrolled(cells)[CellIndex(y, x)] == cells[CellIndex(y + 1, x)]
    ensures Scrolled(cells)[CellIndex(Height - 1, 0)..ScreenCells] == seq(Width, _ => Blank)
    ensures Scrolled(cells)[ScreenCells..] == cells[ScreenCells..]
  {
    var r := Scrolled(cells);
    forall y, x | 0 <= y < Height - 1 && 0 <= x < Width
      ensures r[CellIndex(y, x)] == cells[CellIndex(y + 1, x)]
    {
      assert CellIndex(y, x) < ScreenCells - Width;
    }
  }

  /** scroll_screen on any buffer of at least 2000 cells. */
  method ScrollScreen(buffer: array<Cell>)
    requires buffer.Length >= ScreenCells
    modifies buffer
    ensures buffer[..] == Scrolled(old(buffer[..]))
  {
    var y := 0;
    while y < Height - 1
      invariant 0 <= y <= Height - 1
      invariant forall i :: 0 <= i < y * Width ==> buffer[i] == old(buffer[i + Width])
      invariant forall i :: y * Width <= i < buffer.Length ==> buffer[i] == old(buffer[i])
    {
      CopyRowUp(buffer, y);
      y := y + 1;
    }
    BlankLastRow(buffer);
    assert buffer[..] == Scrolled(old(buffer[..]));
  }

  /** The inner copy loop of scroll_screen: row y takes the cells of row y + 1. */
  method CopyRowUp(buffer: array<Cell>, y: nat)
    requires buffer.Length >= ScreenCells && y < Height - 1
    modifies buffer
    ensures forall i :: 0 <= i < y * Width ==> buffer[i] == old(buffer[i])
    ensures forall i :: y * Width <= i < (y + 1) * Width ==> buffer[i] == old(buffer[i + Width])
    ensures forall i :: (y + 1) * Width <= i < buffer.Length ==> buffer[i] == old(buffer[i])
  {
    var x := 0;
    while x < Width
      invariant 0 <= x <= Width
      invariant forall i :: 0 <= i < y * Width ==> buffer[i] == old(buffer[i])
      invariant forall i :: y * Width <= i < y * Width + x ==> buffer[i] == old(buffer[i + Width])
      invariant forall i :: y * Width + x <= i < buffer.Length ==> buffer[i] == old(buffer[i])
    {
      buffer[y * Width + x] := buffer[(y + 1) * Width + x];
      x := x + 1;
    }
  }

  /** The last loop of scroll_screen: row 24 becomes blank. */
  method BlankLastRow(buffer: array<Cell>)
    requires buffer.Length >= ScreenCells
    modifies buffer
    ensures forall i :: 0 <= i < (Height - 1) * Width ==> buffer[i] == old(buffer[i])
    ensures forall i :: (Height - 1) * Width <= i < ScreenCells ==> buffer[i] == Blank
    ensures forall i :: ScreenCells <= i < buffer.Length ==> buffer[i] == old(buffer[i])
  {
    var x := 0;
    while x < Width
      invariant 0 <= x <= Width
      invariant forall i :: 0 <= i < (Height - 1) * Width ==> buffer[i] == old(buffer[i])
      invariant forall i :: (Height - 1) * Width <= i < (Height - 1) * Width + x ==> buffer[i] == Blank
      invariant forall i :: (Height - 1) * Width + x <= i < buffer.Length ==> buffer[i] == old(buffer[i])
    {
      buffer[(Height - 1) * Width + x] := Blank;
      x := x + 1;
    }
  }

  /** The screen state: vga_buffer with cursor_x and cursor_y (both uint16_t). */
  class Screen {
    const cells: array<Cell>
    var cursorX: nat
    var cursorY: nat

    constructor (cells: array<Cell>)
      requires cells.Length >= ScreenCells
      ensures this.cells == cells && cursorX == 0 && cursorY == 0 && Valid()
    {
      this.cells := cells;
      cursorX := 0;
      cursorY := 0;
    }

    predicate Valid()
      reads this
    {
      cells.Length >= ScreenCells && cursorX < 0x1_0000 && cursorY < 0x1_0000
    }

    /** cls: every screen cell blank, cursor home, cells past the screen kept. */
    method Cls()
      requires Valid()
      modifies this, cells
      ensures Valid() && cursorX == 0 && cursorY == 0
      ensures forall i :: 0 <= i < ScreenCells ==> cells[i] == Blank
      ensures cells[ScreenCells..] == old(cells[ScreenCells..])
    {
      var y := 0;
      while y < Height
        invariant 0 <= y <= Height
        invariant forall i :: 0 <= i < y * Width ==> cells[i] == Blank
        invariant cells[ScreenCells..] == old(cells[ScreenCells..])
      {
        var x := 0;
        while x < Width
          invariant 0 <= x <= Width
          invariant forall i :: 0 <= i < y * Width + x ==> cells[i] == Blank
          invariant cells[ScreenCells..] == old(cells[ScreenCells..])
        {
          cells[y * Width + x] := Blank;
          x := x + 1;
        }
        y := y + 1;
      }
      cursorX := 0;
      cursorY := 0;
    }
  }
}
