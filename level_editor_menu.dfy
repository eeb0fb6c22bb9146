/**
 * The tile palette of the level editor, src/level_editor/level_editor_menu.rs:
 * a panel on the right of the window with one icon per tile texture, laid out
 * left to right in rows that wrap before the panel's right edge.
 */
module EditorMenu {
  import opened Wrappers
  import opened Bytes
  import opened Events
  import opened Menu

  /** Where the first icon sits, relative to the panel's corner. */
  const FIRST_ICON_X: int := 16
  const FIRST_ICON_Y: int := 48

  /** Two's-complement reading of a 32-bit pattern, as Rust's `as i32`. */
  function AsI32(bits: u32): (v: int)
    ensures -0x8000_0000 <= v < 0x8000_0000
    ensures v % U32_LIMIT == bits
  {
    if bits < 0x8000_0000 then bits else bits - U32_LIMIT
  }

  /** `(width - icon_sz) as i32` with u32 subtraction wrapping: once x reaches it, the row wraps. */
  function WrapColumn(width: u32, iconSz: u32): (column: int)
    ensures iconSz <= width < iconSz + 0x8000_0000 ==> column == width - iconSz
  {
    AsI32((width - iconSz) % U32_LIMIT)
  }

  /** Corner of icon `i`, relative to the panel, after `i` steps of the layout walk. */
  function IconCorner(i: nat, iconSz: u32, wrapColumn: int): Point
  {
    if i == 0 then Point(FIRST_ICON_X, FIRST_ICON_Y)
    else
      var prev := IconCorner(i - 1, iconSz, wrapColumn);
      if prev.x + iconSz >= wrapColumn then Point(FIRST_ICON_X, prev.y + iconSz)
      else Point(prev.x + iconSz, prev.y)
  }

  /** The walk keeps x at or right of the first column and only ever moves down. */
  lemma {:induction false} IconCornerBounds(i: nat, iconSz: u32, wrapColumn: int)
    ensures IconCorner(i, iconSz, wrapColumn).x >= FIRST_ICON_X
    ensures IconCorner(i, iconSz, wrapColumn).y >= FIRST_ICON_Y
    ensures var c := IconCorner(i, iconSz, wrapColumn); c.x == FIRST_ICON_X || c.x < wrapColumn
    ensures IconCorner(i, iconSz, wrapColumn).y <= IconCorner(i + 1, iconSz, wrapColumn).y
  {
    if i > 0 {
      IconCornerBounds(i - 1, iconSz, wrapColumn);
    }
  }

  /**
   * Icons never overlap: a later icon is on a row at least one icon lower, or
   * on the same row at least one icon to the right.
   */
  lemma {:induction false} IconsDoNotOverlap(i: nat, j: nat, iconSz: u32, wrapColumn: int)
    requires i < j
    ensures var a, b := IconCorner(i, iconSz, wrapColumn), IconCorner(j, iconSz, wrapColumn);
      b.y >= a.y + iconSz || (b.y == a.y && b.x >= a.x + iconSz)
    decreases j
  {
    if i < j - 1 {
      IconsDoNotOverlap(i, j - 1, iconSz, wrapColumn);
    }
  }

  /** What `display` draws for one icon. */
  datatype IconDraw = IconDraw(rect: Rect, outlined: bool, hovered: bool)

  class LevelEditorMenu {
    var menu: MenuElement
    var selected: u8
    var iconSz: u32

    /** The panel: 320 by 640 pixels centred on (800, 320), titled "Level Editor"; tile 1 is selected. */
    constructor ()
      ensures menu.boundingRect == Rect(640, 0, 320, 640) && menu.id == None && menu.children == []
      ensures menu.text == [Text(TITLE, 16, 16, 12)]
      ensures selected == 1 && iconSz == 32
    {
      var panel := NewMenuElement(800, 320, 320, 640);
      menu := panel.(text := panel.text + [Text(TITLE, 16, 16, 12)]);
      selected := 1;
      iconSz := 32;
    }

    /** "Level Editor" in ASCII. */
    static const TITLE: seq<u8> := [76, 101, 118, 101, 108, 32, 69, 100, 105, 116, 111, 114]

    /**
     * The width `display` and `handle_mouse_input` wrap rows against. The
     * code asks the menu element for its width; that is the bounding
     * rectangle's width.
     */
    function Width(): (w: u32)
      reads this`menu
      ensures w == menu.boundingRect.w || menu.boundingRect.w >= U32_LIMIT
    {
      menu.boundingRect.w % U32_LIMIT
    }

    /** The on-screen rectangle of icon `i`. */
    function IconRect(i: nat): (r: Rect)
      reads this`menu, this`iconSz
      ensures r.w == iconSz && r.h == iconSz
      ensures r.x - menu.X() >= FIRST_ICON_X && r.y - menu.Y() >= FIRST_ICON_Y
    {
      IconCornerBounds(i, iconSz, WrapColumn(Width(), iconSz));
      var corner := IconCorner(i, iconSz, WrapColumn(Width(), iconSz));
      Rect(corner.x + menu.X(), corner.y + menu.Y(), iconSz, iconSz)
    }

    /** The icon drawing loop of `display`, for `textureCount` textures. */
    method DisplayIcons(input: InputState, textureCount: nat) returns (icons: seq<IconDraw>)
      ensures |icons| == textureCount
      ensures forall i :: 0 <= i < textureCount ==>
                icons[i].rect == IconRect(i)
                && (icons[i].outlined <==> i + 1 == selected)
                && (icons[i].hovered <==> IconRect(i).Contains(Point(input.mouseX, input.mouseY)))
    {
      var mouse := Point(input.mouseX, input.mouseY);
      var x, y := 16, 48;
      icons := [];
      for i := 0 to textureCount
        invariant Point(x, y) == IconCorner(i, iconSz, WrapColumn(Width(), iconSz))
        invariant |icons| == i
        invariant forall k :: 0 <= k < i ==>
                    icons[k].rect == IconRect(k)
                    && (icons[k].outlined <==> k + 1 == selected)
                    && (icons[k].hovered <==> IconRect(k).Contains(mouse))
      {
        var iconRect := Rect(x + menu.X(), y + menu.Y(), iconSz, iconSz);
        icons := icons + [IconDraw(iconRect, i + 1 == selected as int, iconRect.Contains(mouse))];
        x := x + iconSz;
        if x >= WrapColumn(Width(), iconSz) {
          y := y + iconSz;
          x := 16;
        }
      }
    }

    /** Whether a left click on the mouse's position selects icon `tile`. */
    predicate IconHit(tile: nat, input: InputState)
      reads this`menu, this`iconSz, input
    {
      IconRect(tile).Contains(Point(input.mouseX, input.mouseY)) && input.MouseButtonIsClicked(Left)
    }

    /** `handle_mouse_input`: a left click on an icon selects its tile; the first icon hit wins. */
    method HandleMouseInput(input: InputState, tileCount: u8)
      modifies this
      ensures menu == old(menu) && iconSz == old(iconSz)
      ensures (exists t :: 0 <= t < tileCount && IconHit(t, input)) ==>
                1 <= selected <= tileCount && IconHit(selected - 1, input)
                && forall t :: 0 <= t < selected - 1 ==> !IconHit(t, input)
      ensures (forall t :: 0 <= t < tileCount ==> !IconHit(t, input)) ==> selected == old(selected)
    {
      var x, y := 16, 48;
      var mouse := Point(input.mouseX, input.mouseY);
      for tile := 0 to tileCount
        invariant Point(x, y) == IconCorner(tile, iconSz, WrapColumn(Width(), iconSz))
        invariant forall t :: 0 <= t < tile ==> !IconHit(t, input)
        invariant menu == old(menu) && iconSz == old(iconSz) && selected == old(selected)
      {
        var iconRect := Rect(x + menu.X(), y + menu.Y(), iconSz, iconSz);
        assert iconRect == IconRect(tile);
        if iconRect.Contains(mouse) && input.MouseButtonIsClicked(Left) {
          assert IconHit(tile, input);
          selected := tile + 1;
          return;
        }
        x := x + iconSz;
        if x >= WrapColumn(Width(), iconSz) {
          y := y + iconSz;
          x := 16;
        }
      }
    }
  }
}
