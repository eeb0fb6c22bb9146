/** Mouse editing of the grid and the spawn point, src/level_editor.rs. */
module LevelEditor {
  import opened Bytes
  import opened Float64
  import opened Events
  import opened LevelGrid

  /** Side of a grid cell on screen, in pixels. */
  const CELL_PIXELS: int := 32

  /** A click turns an empty cell into a wall and any wall into an empty cell. */
  function InvertU8(val: u8): (inverted: u8)
    ensures inverted == 0 || inverted == 1
    ensures inverted == 1 <==> val == 0
  {
    if val == 0 then 1 else 0
  }

  /** Integer division rounding toward zero, as Rust's `/` on signed integers. */
  function TruncDiv(a: int, b: int): (q: int)
    requires b > 0
    ensures 0 <= a ==> 0 <= q && q * b <= a < q * b + b
    ensures a < 0 ==> q <= 0 && q * b - b < a <= q * b
  {
    if a >= 0 then a / b else -((-a) / b)
  }

  /** The cell under a mouse coordinate. */
  function MouseCell(m: i32): (cell: int)
    ensures -0x400_0000 <= cell < 0x400_0000
    ensures -CELL_PIXELS < m < CELL_PIXELS ==> cell == 0
  {
    TruncDiv(m, CELL_PIXELS)
  }

  /** Unlike rounding down, the pixels just left of or above the screen fall in cell 0, not cell -1. */
  lemma CellOfNegativePixel()
    ensures MouseCell(-1) == 0 && (-1) / CELL_PIXELS == -1
  {
  }

  /**
   * `handle_mouse_input_editor`: a left click inverts the tile under the
   * mouse, a right click puts the spawn point at the centre of that cell.
   */
  method HandleMouseInputEditor(level: Level, input: InputState)
    requires level.Valid()
    modifies level, level.levelData
    ensures level.levelData == old(level.levelData) && level.Valid()
    ensures level.width == old(level.width) && level.height == old(level.height)
    ensures var x, y := MouseCell(input.mouseX), MouseCell(input.mouseY);
      && (input.MouseButtonIsClicked(Left) && !level.OutOfBounds(x, y) ==>
            level.GetTile(x, y) == InvertU8(old(level.GetTile(x, y))))
      && (forall x', y' :: (x', y') != (x, y) ==> level.GetTile(x', y') == old(level.GetTile(x', y')))
      && (!input.MouseButtonIsClicked(Left) || level.OutOfBounds(x, y) ==>
            level.levelData[..] == old(level.levelData[..]))
      && (input.MouseButtonIsClicked(Right) ==>
            IsFinite(level.spawnx) && Value(level.spawnx) == x as real + 0.5 &&
            IsFinite(level.spawny) && Value(level.spawny) == y as real + 0.5)
      && (!input.MouseButtonIsClicked(Right) ==>
            level.spawnx == old(level.spawnx) && level.spawny == old(level.spawny))
  {
    var mouseX, mouseY := MouseCell(input.mouseX), MouseCell(input.mouseY);

    if input.MouseButtonIsClicked(Left) {
      level.SetTile(mouseX, mouseY, InvertU8(level.GetTile(mouseX, mouseY)));
    }

    if input.MouseButtonIsClicked(Right) {
      level.spawnx := HalfCell(mouseX);
      level.spawny := HalfCell(mouseY);
    }
  }
}
