# retro-fps-maker core, modelled in Dafny

This project models the discrete core of retro-fps-maker, a small Rust/SDL
grid raycaster with a built-in level editor. It covers these parts:

- **Tile grid** (`LevelGrid.Level`, src/level.rs): a class over an `array<u8>` holding
  `width * height` cells in row-major order. Reads outside the grid give 0 and
  writes outside it do nothing.
- **Level file** (`LevelFile`, src/level_editor/level_file.rs): the big-endian byte layout.
  - The writer is `Encode` / `WriteLevelFile`.
  - The reader is the method `ReadLevelFile`. It builds a fresh `Level` with the
    `set_tile` loop of the source.
  - The reader is specified by the function `Parse`, with both round trips proved.
  - The header words use `usize::to_be_bytes` / `from_be_bytes` (module `Bytes`).
  - The spawn coordinates are `f64` bit patterns (module `Float64`).
- **Input state machine** (`Events`, src/events.rs): each key and mouse button is
  Released, Clicked or Held.
  - `InputState.Update` takes one frame's set of pressed keys and buttons and the
    mouse position, and runs the three loops of `update`.
  - It is proved equal to `NextStates`, whose contract is the state machine.
- **Camera key handling** (`CameraControl`, src/camera.rs) and the **Editor/Game
  mode switch** (`Modes`, src/main.rs).
- **Editor mouse handling** (`LevelEditor`, src/level_editor.rs).
  - The pixel-to-cell mapping uses Rust's truncating division.
  - A left click toggles the tile under the mouse.
  - A right click places the spawn point at the cell centre. The spawn point is
    an exact `f64`, and its value is proved.
- **Menu tree** (`Menu`, src/menu.rs): the `MenuElement` tree is a value.
  - The explicit-stack walks of `get_clicked`, `display_with_children` and
    `display_text_with_children` are methods with loop invariants.
  - Each walk is tied to the recursive specification `Visits`, which is proved to
    visit every node exactly once.
- **Tile palette** (`EditorMenu`, src/level_editor/level_editor_menu.rs): the wrapping
  icon layout, the icon drawing loop of `display`, and `handle_mouse_input`.
- **Raycaster** (`Raycast`, src/raycast.rs): the four scan loops, the choice of scan,
  and the closest-hit selection.
  - Coordinates are reals.
  - The trigonometric values of the ray angle are parameters.

The level file layout:

- Width and height are 8-byte big-endian `usize` words (64-bit target).
- Spawn x and spawn y are the 8-byte big-endian bit patterns of `f64` values.
- The `width * height` tile bytes follow, in buffer order.
- There is no sprite section.

## Model

| member | source | states |
|---|---|---|
| Bytes.U64ToBeBytes | src/level_editor/level_file.rs:10-14 | `to_be_bytes` gives 8 bytes that read back, most significant first, as the same number |
| Bytes.U64FromBeBytes | src/level_editor/level_file.rs:36-41 | `from_be_bytes` is the exact inverse of `to_be_bytes`: re-encoding the number gives back the 8 bytes |
| Bytes.FromToBeBytes | src/level_editor/level_file.rs:10-14 | reading back the n big-endian bytes of any x < 256^n gives x |
| Bytes.ToFromBeBytes | src/level_editor/level_file.rs:36-41 | writing the number that bytes b denote, in |b| bytes, gives b |
| Float64.ToBits | src/level_editor/level_file.rs:13-14 | `f64::to_bits`: the fraction is bits 0..51, the biased exponent bits 52..62 and the sign bit 63 of the pattern |
| Float64.FromBits | src/level_editor/level_file.rs:40-41 | the fields split out of a 64-bit pattern put back together to that pattern |
| Float64.FromToBits | src/level_editor/level_file.rs:13-14 | every `f64` survives `to_bits` then `from_bits` |
| Float64.HalfCell | src/level_editor.rs:65-66 | `cell as f64 + 0.5` is finite and denotes exactly cell + 1/2 for every \|cell\| < 2^52 |
| Float64.ConstantValues | src/camera.rs:32-48 | the patterns used for 0, ±1 and ±2 denote those numbers |
| LevelGrid.CellIndex | src/level.rs:29 | an in-grid cell's buffer index is `w*y+x` and is below `w*h` |
| LevelGrid.RowMajorInjective | src/level.rs:37 | two different in-grid cells never share a buffer index |
| LevelGrid.RowMajorOfIndex | src/level_editor/level_file.rs:49-52 | buffer index i is the in-grid cell (i % w, i / w), whose row-major index is i again |
| LevelGrid.Level.constructor | src/level.rs:10-18 | a buffer of `w*h` zeros, spawn point (0, 0) |
| LevelGrid.Level.OutOfBounds | src/level.rs:20-22 | true exactly for the cells outside `[0,w) x [0,h)` |
| LevelGrid.Level.GetTile | src/level.rs:24-30 | 0 outside the grid; the buffer byte at `w*y+x` inside it |
| LevelGrid.Level.SetTile | src/level.rs:32-38 | out of bounds: buffer unchanged; in bounds: that cell reads back the new tile and every other cell keeps its tile |
| LevelGrid.Level.LevelDataBytes | src/level.rs:40-42 | `w*h` bytes, cell (x, y) at index `w*y+x` |
| LevelFile.Encode | src/level_editor/level_file.rs:10-16 | 32-byte header of width, height, spawn x bits and spawn y bits as big-endian words, then the tile buffer |
| LevelFile.WriteLevelFile | src/level_editor/level_file.rs:7-18 | the bytes written for a level are the encoding of its contents |
| LevelFile.TileBuffer | src/level_editor/level_file.rs:46-47 | `w*h` bytes: the tile bytes present after the header, then zeros for the missing ones |
| LevelFile.Parse | src/level_editor/level_file.rs:20-55 | fewer than 32 bytes is `UnexpectedEof`; a decoded level has exactly `w*h` tiles |
| LevelFile.ReadLevelFile | src/level_editor/level_file.rs:20-55 | succeeds exactly when `Parse` does, with its error; on success a fresh valid level whose contents are `Parse`'s |
| LevelFile.ParseEncode | src/level_editor/level_file.rs:7-55 | decoding an encoded level gives the same width, height, spawn bit patterns and tiles |
| LevelFile.EncodeParse | src/level_editor/level_file.rs:7-55 | re-encoding a decoded file of exact length gives back the file |
| Events.IsHeld | src/events.rs:42-47 | held exactly when recorded and not Released; clicked implies held |
| Events.PressStep | src/events.rs:62-70 | a pressed button is never Released after; it becomes Clicked exactly when it was not Clicked or Held before |
| Events.AfterPress | src/events.rs:61-86 | the first pass adds exactly the pressed buttons to the recorded ones |
| Events.NextStates | src/events.rs:56-117 | after a frame a button is held iff pressed, clicked iff pressed and not held before, and a released one is Released if it was recorded, else absent |
| Events.PressAll | src/events.rs:61-72 | the first loop of `update` yields the step of each pressed button and leaves the others |
| Events.CollectReleased | src/events.rs:88-97 | collects exactly the recorded Clicked/Held buttons that are not pressed |
| Events.MarkReleased | src/events.rs:110-117 | the collected buttons become Released and nothing else changes |
| Events.MarkedIsNext | src/events.rs:88-117 | the three loops together give `NextStates` |
| Events.InputState.constructor | src/events.rs:22-29 | empty key and button maps, mouse at (0, 0) |
| Events.InputState.KeyIsClicked | src/events.rs:31-33 | a clicked key is also held |
| Events.InputState.MouseButtonIsClicked | src/events.rs:35-40 | a clicked button is also held |
| Events.InputState.KeyIsHeld | src/events.rs:42-47 | held exactly when recorded as Clicked or Held |
| Events.InputState.MouseButtonIsHeld | src/events.rs:49-54 | held exactly when recorded as Clicked or Held |
| Events.InputState.Update | src/events.rs:56-122 | both maps become `NextStates` of the old map and the pressed set; the mouse position is the snapshot's |
| CameraControl.Camera.constructor | src/camera.rs:16-24 | position, rotation and fov as given; both speeds 0 |
| CameraControl.Camera.HandleKeyInput | src/camera.rs:32-48 | Up clicked gives speed 2, else Down clicked gives -2, else 0 unless one is held; Left/Right likewise give -1/1 for rotation speed; position, rotation and fov unchanged |
| Modes.NextMode | src/main.rs:38-47 | the mode changes exactly when P is clicked |
| Modes.SwitchTwice | src/main.rs:38-47 | two switches with P clicked return to the start mode |
| Modes.SwitchModes | src/main.rs:32-48 | the new mode is `NextMode`; entering Game puts the camera at the spawn point with rotation 0; otherwise position and rotation are unchanged; speeds and fov are never changed |
| LevelEditor.InvertU8 | src/level_editor.rs:9-15 | the result is 0 or 1, and 1 exactly for 0 |
| LevelEditor.TruncDiv | src/level_editor.rs:58 | the quotient rounds toward zero, for either sign of the dividend |
| LevelEditor.MouseCell | src/level_editor.rs:58 | pixels -31..31 map to cell 0; every i32 pixel maps into the cell range of an i32 |
| LevelEditor.CellOfNegativePixel | src/level_editor.rs:58 | pixel -1 is in cell 0, where a floored division would give -1 |
| LevelEditor.HandleMouseInputEditor | src/level_editor.rs:56-68 | a left click inverts the tile under the mouse and no other; no left click or an off-grid cell leaves the tiles alone; a right click sets the spawn point to the cell centre, else it is unchanged |
| Menu.Text.Width | src/menu.rs:31-33 | `char_size * len(text)` when that fits in a u32 |
| Menu.Text.RectAt | src/menu.rs:76-81 | the text box is at the text's position plus the offset, `width` wide and `2*char_size` high (the u32 product wraps) |
| Menu.MenuElement.X | src/menu.rs:196-198 | definition: the x of the bounding box's top-left corner |
| Menu.MenuElement.Y | src/menu.rs:200-202 | definition: the y of the bounding box's top-left corner |
| Menu.MenuElement.XY | src/menu.rs:204-206 | definition: the bounding box's top-left corner as a point |
| Menu.MenuElement.SetId | src/menu.rs:120-122 | the id becomes `Some(id)`, nothing else changes |
| Menu.MenuElement.RectAt | src/menu.rs:133-138 | the hover rectangle is the bounding box moved by the offset, same size |
| Menu.MenuElement.MouseHoveringWithOffset | src/menu.rs:130-142 | hovering exactly when the bounding box holds the mouse position less the offset |
| Menu.NewMenuElement | src/menu.rs:109-118 | a box of the given size centred on (x, y), no id, no text, no children |
| Menu.ChildOffset | src/menu.rs:311 | definition: a child's offset is the parent's offset plus the parent's corner (`get_clicked`, `display_with_children`), or plus the child's own corner (`display_text_with_children`, line 279) |
| Menu.Visits | src/menu.rs:296-313 | the frames the walk pops once an element is on top: that element first, then the walks of its children, last-pushed child first |
| Menu.StackVisits | src/menu.rs:296-313 | the frames the walk pops from a stack: none for an empty stack, else the top's walk first, then the rest |
| Menu.ChildFrames | src/menu.rs:309-312 | one frame per child, in order, with the offset the walk gives it |
| Menu.StackVisitsAppend | src/menu.rs:296-313 | the walk of a stack visits the upper part first, then the lower |
| Menu.PopPush | src/menu.rs:296-313 | one pop-and-push step visits the top, then continues with its children above the rest |
| Menu.VisitsEveryNodeOnce | src/menu.rs:296-313 | the walk from an element visits every node of its tree exactly once |
| Menu.StackVisitsEveryNodeOnce | src/menu.rs:296-313 | the walk from a stack visits every node of every tree on it exactly once |
| Menu.TextWalkFollowsBoxes | src/menu.rs:259-281 | the text walk from `xy()` visits the same nodes in the same order as the box walk, each offset moved by the node's own corner |
| Menu.StackTextWalkFollowsBoxes | src/menu.rs:264-281 | the same, for a whole stack |
| Menu.LastHovered | src/menu.rs:304-307 | the index found holds the mouse and no later frame does; None means no frame does |
| Menu.ClickedId | src/menu.rs:292-315 | None unless the button is clicked; else the id of the last visited element under the mouse, None when there is none |
| Menu.GetClicked | src/menu.rs:287-316 | None unless the button is clicked, else the id of the last visited element under the mouse |
| Menu.PushChildren | src/menu.rs:309-312 | the children's frames are pushed in order on top of the stack |
| Menu.BoxOf | src/menu.rs:176-189 | the drawn box is the offset rectangle; it is hovered exactly when it holds the mouse |
| Menu.DisplayWithChildren | src/menu.rs:208-237 | one box per visited node, in visiting order |
| Menu.TextRectsOf | src/menu.rs:272-274 | one text box per text of the element, moved by the frame's offset |
| Menu.DrawTexts | src/menu.rs:272-274 | the element's text boxes are appended in order |
| Menu.DisplayTextWithChildren | src/menu.rs:252-284 | the text boxes of every visited node, in visiting order, starting at the root's corner |
| EditorMenu.AsI32 | src/level_editor/level_editor_menu.rs:71 | `as i32` keeps the value modulo 2^32 in the i32 range |
| EditorMenu.WrapColumn | src/level_editor/level_editor_menu.rs:71 | the wrap column is `width - icon_sz` whenever that difference fits in an i32 |
| EditorMenu.IconCorner | src/level_editor/level_editor_menu.rs:85-107 | definition: the layout walk starts at (16, 48) and moves right by `icon_sz`, wrapping to x = 16 one row lower once x reaches the wrap column |
| EditorMenu.IconCornerBounds | src/level_editor/level_editor_menu.rs:85-107 | x stays at least 16 and is 16 or left of the wrap column; y stays at least 48 and never decreases |
| EditorMenu.IconsDoNotOverlap | src/level_editor/level_editor_menu.rs:85-107 | two different icons have disjoint rectangles |
| EditorMenu.LevelEditorMenu.constructor | src/level_editor/level_editor_menu.rs:19-28 | a 320x640 box centred at (800, 320) titled "Level Editor"; `selected == 1`, `icon_sz == 32` |
| EditorMenu.LevelEditorMenu.Width | src/level_editor/level_editor_menu.rs:71 | the menu's width as a u32 |
| EditorMenu.LevelEditorMenu.IconRect | src/level_editor/level_editor_menu.rs:90-95 | icon i is `icon_sz` square, at least (16, 48) inside the menu |
| EditorMenu.LevelEditorMenu.DisplayIcons | src/level_editor/level_editor_menu.rs:44-75 | one icon per texture at `IconRect(i)`; outlined exactly when `selected == i+1`; highlighted exactly when under the mouse |
| EditorMenu.LevelEditorMenu.HandleMouseInput | src/level_editor/level_editor_menu.rs:80-109 | on a left click on some icon, `selected` becomes one more than the first icon hit, so it is in `[1, tile_count]`; otherwise it is unchanged |
| Raycast.Abs | src/raycast.rs:12 | the absolute value |
| Raycast.Floor | src/raycast.rs:14 | the largest integer not above the value |
| Raycast.Ceil | src/raycast.rs:10 | the smallest integer not below the value |
| Raycast.Scan.FirstLine | src/raycast.rs:10-11 | a scan starts on the first grid line at or ahead of the start, within one unit of it |
| Raycast.CrossAfterClosedForm | src/raycast.rs:20-21 | after k steps the other coordinate has moved by exactly k slopes |
| Raycast.Walk | src/raycast.rs:12-22 | definition: the scan loop; it stops out of reach with tile 0 or on a non-zero tile, else steps one line and one slope on (its properties are the lemma below) |
| Raycast.WalkFindsFirstTile | src/raycast.rs:12-24 | the loop stops after finitely many unit steps at the first in-reach line whose cell holds a non-zero tile, or at the first line out of reach with tile 0 |
| Raycast.WalkEnds | src/raycast.rs:12-18 | the loop stops at once out of reach, or on a non-zero tile |
| Raycast.WalkStep | src/raycast.rs:19-22 | an empty cell in reach moves the loop one line on with the same result |
| Raycast.ScanHit | src/raycast.rs:12-24 | with `max_dist <= 0` the loop body never runs and the tile is 0 |
| Raycast.RunScan | src/raycast.rs:4-25 | the loop shared by the four scans computes `ScanHit` |
| Raycast.ScanVerticalPositive | src/raycast.rs:4-25 | the increasing scan over vertical lines, sampling the column right of the line |
| Raycast.ScanVerticalNegative | src/raycast.rs:27-48 | the decreasing scan over vertical lines, sampling column `line - 1` |
| Raycast.ScanHorizontalPositive | src/raycast.rs:50-71 | the increasing scan over horizontal lines, sampling the row below the line |
| Raycast.ScanHorizontalNegative | src/raycast.rs:73-94 | the decreasing scan over horizontal lines, sampling row `line - 1` |
| Raycast.SelectHit | src/raycast.rs:113-117 | a vertical tile of 0 gives the horizontal hit; with both non-zero the horizontal hit wins only when strictly nearer; the tile is non-zero iff either scan's is |
| Raycast.VerticalChoice | src/raycast.rs:99-103 | the increasing vertical scan runs exactly when `cos > 0` |
| Raycast.HorizontalChoice | src/raycast.rs:106-110 | the increasing horizontal scan runs exactly when `sin > 0` |
| Raycast.Raycast | src/raycast.rs:97-118 | the hit is `SelectHit` of the chosen vertical and horizontal scans |

## Left out

- File handles, `File::create/open` errors and partial or failed `write` calls. The writer is modelled as the bytes it means to write, and the reader as a function of the file's bytes.
- `ReadLevelFile`: a single `read` of the tile bytes is assumed to deliver every byte available, up to `w*h`. A short read by the operating system is not modelled.
- `ReadLevelFile`: follows an overflow-checked (debug) build. There a header whose `w*h` overflows a `usize` panics at the multiplication, and one whose `w*h` exceeds `isize::MAX` panics allocating `vec![0; w*h]`; both are the error `BufferTooLarge` here. A release build wraps the product instead (width = height = 2^32 gives 0) and returns a level whose buffer is shorter than `width*height`; that case is not modelled.
- `LevelGrid.Level.constructor`: requires `w*h <= isize::MAX`. This follows an overflow-checked build, where `Level::new` panics on a larger or overflowing product. A release build wraps the product and builds a buffer shorter than `width*height`, which the model does not capture.
- All drawing: `display*`, `Text::display`, `display_level_editor`, `display_level`, `main`'s `display`, colours, textures and fonts. The menu and palette walks are modelled as the sequence of rectangles they draw. The `?` error paths of canvas calls are not modelled.
- SDL's `Rect::new` clamping of sizes (0 becomes 1, large values are capped) is not modelled. Rectangles keep their given sizes.
- i32 overflow in the pixel arithmetic of menus and the palette (`x + offset`, `x += icon_sz as i32`) is not modelled. Coordinates are unbounded integers.
- The frame loop, timing, `can_quit`, SDL/TTF initialisation, `load_default_assets` and `InputState::mouse_pos` (the position fields are read directly).
- `Camera::update`, `game_update` and `dist` are floating-point motion and geometry. `Raycast.SelectHit` compares squared distances, which order hits as `dist` does.
- Raycast: the reals are exact, so IEEE rounding and NaN are not modelled. The saturating `as isize` cast of a coordinate is taken as `floor`.
- `Raycast.Raycast`: `invTan` is a free real, independent of `sin`. At angle 0.0 (the start rotation, and the one entering the game sets) `sin` is 0, the negative horizontal scan runs, and `1.0 / tan` is +infinity, which no real expresses. There the program finds no horizontal hit when the start's y is not a whole number (x becomes -infinity, so every sample is off the grid). When y is a whole number, x becomes NaN, which `as isize` turns into 0, so column 0 is sampled on each row above the start. A large `invTan` only approximates the first case, and the second is not captured.
- `MenuElement::width` does not exist in the source. `EditorMenu.LevelEditorMenu.Width` uses the bounding box width, 320 for the constructed menu.
- `MenuElement::mouse_hovering` (without offset) is used only by drawing and is not modelled.
- The menu tree is a value. `set_id` returns the updated element instead of changing it in place.
- The walks keep `all_children` and `child_offset` as two parallel stacks. Here they are one stack of (element, offset) frames.
- `Menu.Text.Width`: states the product only when it fits in a u32. Above that the model wraps as a release build does, and a debug build would panic. `Menu.Text.RectAt` treats the height `char_size * 2` the same way.
- `EditorMenu.WrapColumn`: states `width - icon_sz` only when it fits in an i32. Otherwise the model wraps as a release build does.
- `LevelEditor.MouseCell`: the cell range bound is the one the i32 mouse position gives. Mouse positions are taken from the snapshot, not from SDL.
- Sprites, the depth buffer and billboards do not appear in this code.
- `src/game.rs` and `src/sprite.rs` are not part of this model beyond `dist`'s ordering.
