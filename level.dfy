/**
 * The tile grid of src/level.rs: a row-major `width * height` byte buffer and
 * a spawn point. Reads outside the grid give 0; writes outside it do nothing.
 */
module LevelGrid {
  import opened Bytes
  import opened Float64

  /** Everything a level holds, as a value: what the level file stores. */
  datatype LevelImage = LevelImage(width: usize, height: usize, spawnx: F64, spawny: F64, tiles: seq<u8>)

  /** Position of cell (x, y) in a row-major buffer `width` cells wide. */
  function RowMajor(width: int, x: int, y: int): int
  {
    width * y + x
  }

  predicate InGrid(width: int, height: int, x: int, y: int)
  {
    0 <= x < width && 0 <= y < height
  }

  /** The place of an in-grid cell in the buffer. */
  function CellIndex(width: nat, height: nat, x: int, y: int): (i: nat)
    requires InGrid(width, height, x, y)
    ensures i == RowMajor(width, x, y) && i < width * height
  {
    RowMajorInRange(width, height, x, y);
    RowMajor(width, x, y)
  }

  /** Every cell of the grid has its own place in the buffer. */
  lemma RowMajorInRange(width: nat, height: nat, x: int, y: int)
    requires InGrid(width, height, x, y)
    ensures 0 <= RowMajor(width, x, y) < width * height
  {
    assert width * y <= width * (height - 1) by {
      MulLeftMonotonic(width, y, height - 1);
    }
  }

  lemma MulLeftMonotonic(a: nat, b: int, c: int)
    requires b <= c
    ensures a * b <= a * c
  {
  }

  /** Two different cells never share a place in the buffer. */
  lemma RowMajorInjective(width: nat, height: nat, x1: int, y1: int, x2: int, y2: int)
    requires InGrid(width, height, x1, y1) && InGrid(width, height, x2, y2)
    requires RowMajor(width, x1, y1) == RowMajor(width, x2, y2)
    ensures x1 == x2 && y1 == y2
  {
    if y1 < y2 {
      MulLeftMonotonic(width, y1 + 1, y2);
    } else if y2 < y1 {
      MulLeftMonotonic(width, y2 + 1, y1);
    }
  }

  /** Place `i` of the buffer is cell (i % width, i / width), and that cell is in the grid. */
  lemma RowMajorOfIndex(width: nat, height: nat, i: int)
    requires 0 <= i < width * height
    ensures width > 0 && InGrid(width, height, i % width, i / width)
    ensures RowMajor(width, i % width, i / width) == i
  {
    if i / width >= height {
      MulLeftMonotonic(width, height, i / width);
    }
  }

  class Level {
    var width: usize
    var height: usize
    var levelData: array<u8>
    var spawnx: F64
    var spawny: F64

    /** The buffer holds one byte per cell, and a `Vec` is never longer than `isize::MAX`. */
    ghost predicate Valid()
      reads this
    {
      levelData.Length == width * height && width * height <= ISIZE_MAX
    }

    ghost function Image(): LevelImage
      reads this, levelData
    {
      LevelImage(width, height, spawnx, spawny, levelData[..])
    }

    /** `Level::new`: an all-empty grid with the spawn point at (0, 0). */
    constructor (w: usize, h: usize)
      requires w * h <= ISIZE_MAX
      ensures Valid() && fresh(levelData)
      ensures Image() == LevelImage(w, h, ZERO, ZERO, seq(w * h, _ => 0))
    {
      width, height := w, h;
      levelData := new u8[w * h](_ => 0);
      spawnx, spawny := ZERO, ZERO;
    }

    /** `out_of_bounds`: exactly the cells outside the grid. */
    predicate OutOfBounds(x: int, y: int)
      reads this
      ensures OutOfBounds(x, y) <==> !InGrid(width, height, x, y)
    {
      x < 0 || y < 0 || x >= width || y >= height
    }

    function GetTile(x: int, y: int): (tile: u8)
      requires Valid()
      reads this, levelData
      ensures OutOfBounds(x, y) ==> tile == 0
      ensures !OutOfBounds(x, y) ==> tile == levelData[CellIndex(width, height, x, y)]
    {
      if OutOfBounds(x, y) then 0 else levelData[CellIndex(width, height, x, y)]
    }

    method SetTile(x: int, y: int, tile: u8)
      requires Valid()
      modifies levelData
      ensures Valid()
      ensures OutOfBounds(x, y) ==> levelData[..] == old(levelData[..])
      ensures !OutOfBounds(x, y) ==> levelData[..] == old(levelData[..])[CellIndex(width, height, x, y) := tile]
      ensures !OutOfBounds(x, y) ==> GetTile(x, y) == tile
      ensures forall x', y' :: (x', y') != (x, y) ==> GetTile(x', y') == old(GetTile(x', y'))
    {
      if OutOfBounds(x, y) {
        return;
      }
      levelData[CellIndex(width, height, x, y)] := tile;
      forall x', y' | (x', y') != (x, y) && !OutOfBounds(x', y')
        ensures GetTile(x', y') == old(GetTile(x', y'))
      {
        if CellIndex(width, height, x', y') == CellIndex(width, height, x, y) {
          RowMajorInjective(width, height, x, y, x', y');
        }
      }
    }

    /** `level_data_bytes`: the whole buffer, cell (x, y) at place `width * y + x`. */
    function LevelDataBytes(): (bytes: seq<u8>)
      requires Valid()
      reads this, levelData
      ensures |bytes| == width * height
      ensures forall x, y :: InGrid(width, height, x, y) ==> bytes[CellIndex(width, height, x, y)] == GetTile(x, y)
    {
      levelData[..]
    }
  }
}
