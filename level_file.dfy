/**
 * The level file of src/level_editor/level_file.rs: four 8-byte big-endian
 * words (width, height, spawn x, spawn y) followed by the tile bytes in
 * buffer order. Files are byte sequences here; opening, creating and the
 * partial writes of `File::write` are not part of the model.
 */
module LevelFile {
  import opened Wrappers
  import opened Bytes
  import opened Float64
  import opened LevelGrid

  /** Width, height, spawn x and spawn y, one 8-byte word each. */
  const HEADER_BYTES: nat := 4 * WORD_BYTES

  datatype ReadError =
    | UnexpectedEof   // `read_exact` ran out of bytes while reading the header
    | BufferTooLarge  // `width * height` exceeds `isize::MAX` (overflow-checked build): the grid cannot be allocated

  /** The `k`-th 8-byte big-endian word of `bytes`. */
  function Word(bytes: seq<u8>, k: nat): u64
    requires (k + 1) * WORD_BYTES <= |bytes|
  {
    U64FromBeBytes(bytes[k * WORD_BYTES..(k + 1) * WORD_BYTES])
  }

  /** The bytes of a level, in the order `write_level_file` writes them. */
  function Encode(image: LevelImage): (bytes: seq<u8>)
    ensures |bytes| == HEADER_BYTES + |image.tiles|
    ensures Word(bytes, 0) == image.width && Word(bytes, 1) == image.height
    ensures Word(bytes, 2) == ToBits(image.spawnx) && Word(bytes, 3) == ToBits(image.spawny)
    ensures bytes[HEADER_BYTES..] == image.tiles
  {
    var bytes := U64ToBeBytes(image.width) + U64ToBeBytes(image.height)
      + U64ToBeBytes(ToBits(image.spawnx)) + U64ToBeBytes(ToBits(image.spawny)) + image.tiles;
    assert bytes[0..8] == U64ToBeBytes(image.width);
    assert bytes[8..16] == U64ToBeBytes(image.height);
    assert bytes[16..24] == U64ToBeBytes(ToBits(image.spawnx));
    assert bytes[24..32] == U64ToBeBytes(ToBits(image.spawny));
    bytes
  }

  /** `write_level_file`: the header words, then `level_data_bytes()`. */
  function WriteLevelFile(level: Level): (bytes: seq<u8>)
    requires level.Valid()
    reads level, level.levelData
    ensures bytes == Encode(level.Image())
  {
    Encode(LevelImage(level.width, level.height, level.spawnx, level.spawny, level.LevelDataBytes()))
  }

  /**
   * A zeroed buffer of `n` bytes after one `read` from `rest`: the bytes that
   * are there, then zeros for the ones that are missing.
   */
  function TileBuffer(rest: seq<u8>, n: nat): (buffer: seq<u8>)
    ensures |buffer| == n
    ensures forall i :: 0 <= i < n ==> buffer[i] == if i < |rest| then rest[i] else 0
  {
    if |rest| >= n then rest[..n] else rest + seq(n - |rest|, _ => 0)
  }

  /** What `read_level_file` reads from the bytes of a file. */
  function Parse(bytes: seq<u8>): (r: Result<LevelImage, ReadError>)
    ensures |bytes| < HEADER_BYTES ==> r == Err(UnexpectedEof)
    ensures r.Ok? ==> |r.value.tiles| == r.value.width * r.value.height <= ISIZE_MAX
  {
    if |bytes| < HEADER_BYTES then Err(UnexpectedEof)
    else
      var width, height := Word(bytes, 0), Word(bytes, 1);
      if width * height > ISIZE_MAX then Err(BufferTooLarge)
      else
        Ok(LevelImage(width, height, FromBits(Word(bytes, 2)), FromBits(Word(bytes, 3)),
                      TileBuffer(bytes[HEADER_BYTES..], width * height)))
  }

  /** `read_level_file`, given the bytes of the file. */
  method ReadLevelFile(file: seq<u8>) returns (r: Result<Level, ReadError>)
    ensures r.Ok? <==> Parse(file).Ok?
    ensures r.Err? ==> Parse(file) == Err(r.error)
    ensures r.Ok? ==> fresh(r.value) && fresh(r.value.levelData) && r.value.Valid()
    ensures r.Ok? ==> r.value.Image() == Parse(file).value
  {
    if |file| < HEADER_BYTES {
      return Err(UnexpectedEof);
    }
    var width := Word(file, 0);
    var height := Word(file, 1);
    var startx := Word(file, 2);
    var starty := Word(file, 3);
    if width * height > ISIZE_MAX {
      return Err(BufferTooLarge);
    }
    var level := new Level(width, height);
    level.spawnx := FromBits(startx);
    level.spawny := FromBits(starty);

    var levelData := TileBuffer(file[HEADER_BYTES..], width * height);
    var i := 0;
    while i < width * height
      invariant i <= width * height
      invariant level.Valid() && fresh(level) && fresh(level.levelData)
      invariant level.width == width && level.height == height
      invariant level.spawnx == FromBits(startx) && level.spawny == FromBits(starty)
      invariant level.levelData[..i] == levelData[..i]
      invariant forall j :: i <= j < width * height ==> level.levelData[j] == 0
      modifies level.levelData
    {
      RowMajorOfIndex(width, height, i);
      level.SetTile(i % width, i / width, levelData[i]);
      i := i + 1;
    }
    assert level.levelData[..] == levelData;
    return Ok(level);
  }

  /** Reading a written level gives back the same level. */
  lemma ParseEncode(image: LevelImage)
    requires |image.tiles| == image.width * image.height <= ISIZE_MAX
    ensures Parse(Encode(image)) == Ok(image)
  {
    var bytes := Encode(image);
    FromToBits(image.spawnx);
    FromToBits(image.spawny);
    assert TileBuffer(bytes[HEADER_BYTES..], image.width * image.height) == image.tiles;
  }

  /** A file that reads without padding is exactly what writing its level gives. */
  lemma EncodeParse(bytes: seq<u8>)
    requires Parse(bytes).Ok?
    requires |bytes| == HEADER_BYTES + Parse(bytes).value.width * Parse(bytes).value.height
    ensures Encode(Parse(bytes).value) == bytes
  {
    var image := Parse(bytes).value;
    var again := Encode(image);
    forall k | 0 <= k < 4
      ensures again[k * WORD_BYTES..(k + 1) * WORD_BYTES] == bytes[k * WORD_BYTES..(k + 1) * WORD_BYTES]
    {
      var slice := bytes[k * WORD_BYTES..(k + 1) * WORD_BYTES];
      assert U64ToBeBytes(U64FromBeBytes(slice)) == slice;
      assert U64ToBeBytes(U64FromBeBytes(again[k * WORD_BYTES..(k + 1) * WORD_BYTES]))
          == again[k * WORD_BYTES..(k + 1) * WORD_BYTES];
    }
    assert again[HEADER_BYTES..] == bytes[HEADER_BYTES..];
    assert again == again[0..8] + again[8..16] + again[16..24] + again[24..32] + again[32..];
    assert bytes == bytes[0..8] + bytes[8..16] + bytes[16..24] + bytes[24..32] + bytes[32..];
  }
}
