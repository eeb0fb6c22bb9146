/**
 * Menu elements of src/menu.rs: rectangles that may carry an id, text and
 * child elements. A click, the boxes and the text are all found by the same
 * walk over the tree with an explicit stack, each element paired with the
 * offset at which it is drawn. Colours, fonts and textures are presentation
 * and are not part of the model.
 */
module Menu {
  import opened Wrappers
  import opened Bytes
  import opened Events

  const U32_LIMIT: int := 0x1_0000_0000
  type u32 = x: int | 0 <= x < U32_LIMIT

  datatype Point = Point(x: int, y: int)
  {
    function Plus(d: Point): Point
    {
      Point(x + d.x, y + d.y)
    }
  }

  /** An SDL rectangle: top-left corner, width and height. */
  datatype Rect = Rect(x: int, y: int, w: nat, h: nat)
  {
    /** SDL's point test: the left and top edges are inside, the right and bottom edges are not. */
    predicate Contains(p: Point)
    {
      x <= p.x < x + w && y <= p.y < y + h
    }
  }

  /** A line of text, stored as its UTF-8 bytes. */
  datatype Text = Text(text: seq<u8>, x: int, y: int, charSize: u32)
  {
    /** `Text::width`: every byte is one character cell wide; the u32 product wraps. */
    function Width(): (w: u32)
      ensures charSize * |text| < U32_LIMIT ==> w == charSize * |text|
    {
      (charSize * (|text| % U32_LIMIT)) % U32_LIMIT
    }

    /** Where `display_with_offset` puts the text: two cells high (a wrapping u32 product), relative to `offset`. */
    function RectAt(offset: Point): (r: Rect)
      ensures r.x - offset.x == x && r.y - offset.y == y
      ensures r.w == Width() && r.h < U32_LIMIT
      ensures charSize * 2 < U32_LIMIT ==> r.h == charSize * 2
    {
      Rect(x + offset.x, y + offset.y, Width(), (charSize * 2) % U32_LIMIT)
    }
  }

  datatype MenuElement = MenuElement(boundingRect: Rect, id: Option<string>, text: seq<Text>, children: seq<MenuElement>)
  {
    function X(): int
    {
      boundingRect.x
    }

    function Y(): int
    {
      boundingRect.y
    }

    function XY(): Point
    {
      Point(X(), Y())
    }

    /** `set_id`: only the id changes. */
    function SetId(newId: string): (e: MenuElement)
      ensures e.id == Some(newId)
      ensures e.boundingRect == boundingRect && e.text == text && e.children == children
    {
      this.(id := Some(newId))
    }

    /** The bounding rectangle moved by `offset`, as drawn and as hit. */
    function RectAt(offset: Point): (r: Rect)
      ensures r.w == boundingRect.w && r.h == boundingRect.h
      ensures r.x - offset.x == X() && r.y - offset.y == Y()
    {
      Rect(X() + offset.x, Y() + offset.y, boundingRect.w, boundingRect.h)
    }

    /** `mouse_hovering_with_offset`. */
    function MouseHoveringWithOffset(mouse: Point, offset: Point): (hovering: bool)
      ensures hovering <==> boundingRect.Contains(Point(mouse.x - offset.x, mouse.y - offset.y))
    {
      RectAt(offset).Contains(mouse)
    }
  }

  /** `MenuElement::new`: a `w` by `h` element centred on `(x, y)`, with nothing in it. */
  function NewMenuElement(x: int, y: int, w: u32, h: u32): (e: MenuElement)
    ensures e.boundingRect.w == w && e.boundingRect.h == h
    ensures 0 <= (e.X() + w - x) - (x - e.X()) <= 1
    ensures 0 <= (e.Y() + h - y) - (y - e.Y()) <= 1
    ensures e.id == None && e.text == [] && e.children == []
  {
    MenuElement(Rect(x - w / 2, y - h / 2, w, h), None, [], [])
  }

  // ---------------------------------------------------------------------------
  // The walk over the tree

  /** An element waiting on the stack, with the offset it is drawn at. */
  datatype Frame = Frame(element: MenuElement, offset: Point)

  /**
   * How the offset of a child is found from the frame of its parent:
   * `get_clicked` and `display_with_children` add the parent's corner,
   * `display_text_with_children` the child's own corner.
   */
  datatype OffsetRule = ParentCorner | OwnCorner

  function ChildOffset(rule: OffsetRule, parent: Frame, child: MenuElement): Point
  {
    match rule
    case ParentCorner => parent.offset.Plus(parent.element.XY())
    case OwnCorner => parent.offset.Plus(child.XY())
  }

  /** The frames pushed after `parent` is popped, first child first. */
  function ChildFrames(parent: Frame, rule: OffsetRule): (frames: seq<Frame>)
    ensures |frames| == |parent.element.children|
    ensures forall i :: 0 <= i < |frames| ==>
              frames[i] == Frame(parent.element.children[i], ChildOffset(rule, parent, parent.element.children[i]))
  {
    var children := parent.element.children;
    seq(|children|, i requires 0 <= i < |children| => Frame(children[i], ChildOffset(rule, parent, children[i])))
  }

  /** Number of elements in a tree. */
  function Size(e: MenuElement): nat
    decreases e, 1
  {
    1 + SizeOfAll(e.children)
  }

  function SizeOfAll(elements: seq<MenuElement>): nat
    decreases elements, 0
  {
    if elements == [] then 0 else SizeOfAll(elements[..|elements| - 1]) + Size(elements[|elements| - 1])
  }

  function Elements(frames: seq<Frame>): (elements: seq<MenuElement>)
    ensures |elements| == |frames|
    ensures forall i :: 0 <= i < |frames| ==> elements[i] == frames[i].element
  {
    seq(|frames|, i requires 0 <= i < |frames| => frames[i].element)
  }

  function FramesSize(frames: seq<Frame>): nat
  {
    SizeOfAll(Elements(frames))
  }

  lemma ChildFramesSize(parent: Frame, rule: OffsetRule)
    ensures FramesSize(ChildFrames(parent, rule)) == SizeOfAll(parent.element.children)
  {
    assert Elements(ChildFrames(parent, rule)) == parent.element.children;
  }

  /** Elements of a stack are popped from the back. */
  lemma FramesSizeLast(frames: seq<Frame>)
    requires frames != []
    ensures FramesSize(frames) == FramesSize(frames[..|frames| - 1]) + Size(frames[|frames| - 1].element)
  {
    assert Elements(frames[..|frames| - 1]) == Elements(frames)[..|frames| - 1];
  }

  /** The frames the walk pops, in order, from the moment `top` is on top of the stack. */
  function Visits(top: Frame, rule: OffsetRule): (visits: seq<Frame>)
    ensures visits != [] && visits[0] == top
    decreases 2 * Size(top.element)
  {
    ChildFramesSize(top, rule);
    [top] + StackVisits(ChildFrames(top, rule), rule)
  }

  /** The frames the walk pops, in order, starting from `stack` (its top is its last frame). */
  function StackVisits(stack: seq<Frame>, rule: OffsetRule): (visits: seq<Frame>)
    ensures stack == [] <==> visits == []
    ensures stack != [] ==> visits[0] == stack[|stack| - 1]
    decreases 2 * FramesSize(stack) + 1
  {
    if stack == [] then []
    else
      FramesSizeLast(stack);
      Visits(stack[|stack| - 1], rule) + StackVisits(stack[..|stack| - 1], rule)
  }

  /** Frames pushed on top are all popped before what lies beneath them. */
  lemma {:induction false} StackVisitsAppend(below: seq<Frame>, above: seq<Frame>, rule: OffsetRule)
    ensures StackVisits(below + above, rule) == StackVisits(above, rule) + StackVisits(below, rule)
    decreases |above|
  {
    if above == [] {
      assert below + above == below;
    } else {
      var stack := below + above;
      assert stack[|stack| - 1] == above[|above| - 1];
      assert stack[..|stack| - 1] == below + above[..|above| - 1];
      StackVisitsAppend(below, above[..|above| - 1], rule);
    }
  }

  /** One turn of the loop: pop the top frame, push its children. */
  lemma PopPush(stack: seq<Frame>, rule: OffsetRule)
    requires stack != []
    ensures var top := stack[|stack| - 1];
      StackVisits(stack, rule) == [top] + StackVisits(stack[..|stack| - 1] + ChildFrames(top, rule), rule)
  {
    var top := stack[|stack| - 1];
    StackVisitsAppend(stack[..|stack| - 1], ChildFrames(top, rule), rule);
  }

  /** All the elements of a tree, parents before children, children in order. */
  function Nodes(e: MenuElement): seq<MenuElement>
    decreases e, 1
  {
    [e] + NodesOfAll(e.children)
  }

  function NodesOfAll(elements: seq<MenuElement>): seq<MenuElement>
    decreases elements, 0
  {
    if elements == [] then [] else NodesOfAll(elements[..|elements| - 1]) + Nodes(elements[|elements| - 1])
  }

  lemma ElementsAppend(a: seq<Frame>, b: seq<Frame>)
    ensures Elements(a + b) == Elements(a) + Elements(b)
  {
  }

  /** The walk pops every element of the tree exactly once. */
  lemma {:induction false} VisitsEveryNodeOnce(top: Frame, rule: OffsetRule)
    ensures multiset(Elements(Visits(top, rule))) == multiset(Nodes(top.element))
    decreases 2 * Size(top.element)
  {
    var children := ChildFrames(top, rule);
    ChildFramesSize(top, rule);
    StackVisitsEveryNodeOnce(children, rule);
    assert Elements(children) == top.element.children;
    ElementsAppend([top], StackVisits(children, rule));
  }

  lemma {:induction false} StackVisitsEveryNodeOnce(stack: seq<Frame>, rule: OffsetRule)
    ensures multiset(Elements(StackVisits(stack, rule))) == multiset(NodesOfAll(Elements(stack)))
    decreases 2 * FramesSize(stack) + 1
  {
    if stack != [] {
      var last, rest := stack[|stack| - 1], stack[..|stack| - 1];
      FramesSizeLast(stack);
      VisitsEveryNodeOnce(last, rule);
      StackVisitsEveryNodeOnce(rest, rule);
      ElementsAppend(Visits(last, rule), StackVisits(rest, rule));
      assert Elements(rest) == Elements(stack)[..|stack| - 1];
    }
  }

  /** A frame moved to the corner of its own element. */
  function Cornered(f: Frame): Frame
  {
    Frame(f.element, f.offset.Plus(f.element.XY()))
  }

  function CorneredAll(frames: seq<Frame>): (moved: seq<Frame>)
    ensures |moved| == |frames|
    ensures forall i :: 0 <= i < |frames| ==> moved[i] == Cornered(frames[i])
  {
    seq(|frames|, i requires 0 <= i < |frames| => Cornered(frames[i]))
  }

  /**
   * The text walk pops the same elements in the same order as the click and
   * box walks, each at its box's offset plus its box's corner.
   */
  lemma {:induction false} TextWalkFollowsBoxes(top: Frame)
    ensures Visits(Cornered(top), OwnCorner) == CorneredAll(Visits(top, ParentCorner))
    decreases 2 * Size(top.element)
  {
    var children := ChildFrames(top, ParentCorner);
    assert ChildFrames(Cornered(top), OwnCorner) == CorneredAll(children);
    ChildFramesSize(top, ParentCorner);
    StackTextWalkFollowsBoxes(children);
    assert CorneredAll([top] + StackVisits(children, ParentCorner))
        == [Cornered(top)] + CorneredAll(StackVisits(children, ParentCorner));
  }

  lemma {:induction false} StackTextWalkFollowsBoxes(stack: seq<Frame>)
    ensures StackVisits(CorneredAll(stack), OwnCorner) == CorneredAll(StackVisits(stack, ParentCorner))
    decreases 2 * FramesSize(stack) + 1
  {
    if stack != [] {
      var last, rest := stack[|stack| - 1], stack[..|stack| - 1];
      FramesSizeLast(stack);
      TextWalkFollowsBoxes(last);
      StackTextWalkFollowsBoxes(rest);
      assert CorneredAll(stack)[..|stack| - 1] == CorneredAll(rest);
      assert CorneredAll(Visits(last, ParentCorner) + StackVisits(rest, ParentCorner))
          == CorneredAll(Visits(last, ParentCorner)) + CorneredAll(StackVisits(rest, ParentCorner));
    }
  }

  // ---------------------------------------------------------------------------
  // Clicks and drawing

  /** The last of `frames` whose rectangle holds the mouse. */
  function LastHovered(frames: seq<Frame>, mouse: Point): (r: Option<nat>)
    ensures r.Some? ==> r.value < |frames| && frames[r.value].element.MouseHoveringWithOffset(mouse, frames[r.value].offset)
    ensures forall j :: (if r.Some? then r.value + 1 else 0) <= j < |frames| ==>
              !frames[j].element.MouseHoveringWithOffset(mouse, frames[j].offset)
  {
    if frames == [] then None
    else if frames[|frames| - 1].element.MouseHoveringWithOffset(mouse, frames[|frames| - 1].offset) then Some(|frames| - 1)
    else LastHovered(frames[..|frames| - 1], mouse)
  }

  /** The id a click reports: that of the last element popped with the mouse on it, if the button was clicked. */
  function ClickedId(frames: seq<Frame>, mouse: Point, clicked: bool): (id: Option<string>)
    ensures !clicked ==> id == None
    ensures clicked && LastHovered(frames, mouse).Some? ==> id == frames[LastHovered(frames, mouse).value].element.id
    ensures (forall j :: 0 <= j < |frames| ==> !frames[j].element.MouseHoveringWithOffset(mouse, frames[j].offset)) ==> id == None
  {
    if !clicked then None
    else match LastHovered(frames, mouse)
      case None => None
      case Some(i) => frames[i].element.id
  }

  /** `get_clicked`. */
  method GetClicked(root: MenuElement, input: InputState, button: MouseButton) returns (id: Option<string>)
    ensures id == ClickedId(Visits(Frame(root, Point(0, 0)), ParentCorner), Point(input.mouseX, input.mouseY),
                            input.MouseButtonIsClicked(button))
  {
    var mouse := Point(input.mouseX, input.mouseY);
    var clicked := input.MouseButtonIsClicked(button);
    var stack := [Frame(root, Point(0, 0))];
    ghost var all := Visits(stack[0], ParentCorner);
    ghost var visited: seq<Frame> := [];
    assert StackVisits(stack, ParentCorner) == all + StackVisits([], ParentCorner);
    id := None;
    while stack != []
      invariant visited + StackVisits(stack, ParentCorner) == all
      invariant id == ClickedId(visited, mouse, clicked)
      decreases |all| - |visited|
    {
      PopPush(stack, ParentCorner);
      var top := stack[|stack| - 1];
      stack := stack[..|stack| - 1];
      if top.element.MouseHoveringWithOffset(mouse, top.offset) && input.MouseButtonIsClicked(button) {
        id := top.element.id;
      }
      stack := PushChildren(stack, top, ParentCorner);
      assert (visited + [top])[..|visited|] == visited;
      visited := visited + [top];
    }
    assert visited == all;
  }

  /** The inner loop of each walk: every child of `top` is pushed with its offset, first child first. */
  method PushChildren(stack: seq<Frame>, top: Frame, rule: OffsetRule) returns (pushed: seq<Frame>)
    ensures pushed == stack + ChildFrames(top, rule)
  {
    pushed := stack;
    for i := 0 to |top.element.children|
      invariant pushed == stack + ChildFrames(top, rule)[..i]
    {
      var child := top.element.children[i];
      pushed := pushed + [Frame(child, ChildOffset(rule, top, child))];
    }
    assert ChildFrames(top, rule)[..|top.element.children|] == ChildFrames(top, rule);
  }

  /** A box as `display_with_offset` fills it: its rectangle, and whether it takes the hover colour. */
  datatype Box = Box(rect: Rect, hovered: bool)

  function BoxOf(f: Frame, mouse: Point): (b: Box)
    ensures b.rect == f.element.RectAt(f.offset)
    ensures b.hovered <==> b.rect.Contains(mouse)
  {
    Box(Rect(f.element.boundingRect.x + f.offset.x, f.element.boundingRect.y + f.offset.y,
             f.element.boundingRect.w, f.element.boundingRect.h),
        f.element.MouseHoveringWithOffset(mouse, f.offset))
  }

  /** `display_with_children`: the boxes it fills, in drawing order. */
  method DisplayWithChildren(root: MenuElement, input: InputState) returns (drawn: seq<Box>)
    ensures var visits := Visits(Frame(root, Point(0, 0)), ParentCorner);
      |drawn| == |visits| &&
      forall i :: 0 <= i < |visits| ==> drawn[i] == BoxOf(visits[i], Point(input.mouseX, input.mouseY))
  {
    var mouse := Point(input.mouseX, input.mouseY);
    var stack := [Frame(root, Point(0, 0))];
    ghost var all := Visits(stack[0], ParentCorner);
    ghost var visited: seq<Frame> := [];
    assert StackVisits(stack, ParentCorner) == all + StackVisits([], ParentCorner);
    drawn := [];
    while stack != []
      invariant visited + StackVisits(stack, ParentCorner) == all
      invariant |drawn| == |visited|
      invariant forall i :: 0 <= i < |visited| ==> drawn[i] == BoxOf(visited[i], mouse)
      decreases |all| - |visited|
    {
      PopPush(stack, ParentCorner);
      var top := stack[|stack| - 1];
      stack := stack[..|stack| - 1];
      drawn := drawn + [BoxOf(top, mouse)];
      stack := PushChildren(stack, top, ParentCorner);
      visited := visited + [top];
    }
  }

  /** The rectangles of the texts of one element, in order. */
  function TextRectsOf(f: Frame): (rects: seq<Rect>)
    ensures |rects| == |f.element.text|
    ensures forall i :: 0 <= i < |rects| ==> rects[i] == f.element.text[i].RectAt(f.offset)
  {
    seq(|f.element.text|, i requires 0 <= i < |f.element.text| => f.element.text[i].RectAt(f.offset))
  }

  /** The text rectangles of the elements of `frames`, in order. */
  function TextRects(frames: seq<Frame>): seq<Rect>
  {
    if frames == [] then [] else TextRects(frames[..|frames| - 1]) + TextRectsOf(frames[|frames| - 1])
  }

  /** The loop over the texts of one element. */
  method DrawTexts(drawn: seq<Rect>, top: Frame) returns (more: seq<Rect>)
    ensures more == drawn + TextRectsOf(top)
  {
    more := drawn;
    for i := 0 to |top.element.text|
      invariant more == drawn + TextRectsOf(top)[..i]
    {
      more := more + [top.element.text[i].RectAt(top.offset)];
    }
    assert TextRectsOf(top)[..|top.element.text|] == TextRectsOf(top);
  }

  /** `display_text_with_children`: the text rectangles it draws, in drawing order. */
  method DisplayTextWithChildren(root: MenuElement) returns (drawn: seq<Rect>)
    ensures drawn == TextRects(Visits(Frame(root, root.XY()), OwnCorner))
  {
    var stack := [Frame(root, root.XY())];
    ghost var all := Visits(stack[0], OwnCorner);
    ghost var visited: seq<Frame> := [];
    assert StackVisits(stack, OwnCorner) == all + StackVisits([], OwnCorner);
    drawn := [];
    while stack != []
      invariant visited + StackVisits(stack, OwnCorner) == all
      invariant drawn == TextRects(visited)
      decreases |all| - |visited|
    {
      PopPush(stack, OwnCorner);
      var top := stack[|stack| - 1];
      stack := stack[..|stack| - 1];
      drawn := DrawTexts(drawn, top);
      stack := PushChildren(stack, top, OwnCorner);
      assert (visited + [top])[..|visited|] == visited;
      visited := visited + [top];
    }
    assert visited == all;
  }
}
