/**
 * The per-frame button state machine of src/events.rs. Each key and mouse
 * button is Released, Clicked (down this frame, not the one before) or Held
 * (down for at least two frames). A frame's keyboard and mouse snapshot is
 * given as the set of keys that are down, the set of buttons that are down
 * and the mouse position.
 */
module Events {
  import opened Wrappers

  datatype ButtonState = Released | Clicked | Held

  type i32 = x: int | -0x8000_0000 <= x < 0x8000_0000

  /** SDL scancodes (USB HID usage ids) of the keys the program reads. */
  type Scancode = nat
  const SCANCODE_P: Scancode := 19
  const SCANCODE_RIGHT: Scancode := 79
  const SCANCODE_LEFT: Scancode := 80
  const SCANCODE_DOWN: Scancode := 81
  const SCANCODE_UP: Scancode := 82

  datatype MouseButton = Unknown | Left | Middle | Right | X1 | X2

  /** The recorded state of `k`, if it was ever seen down. */
  function Lookup<K>(states: map<K, ButtonState>, k: K): Option<ButtonState>
  {
    if k in states then Some(states[k]) else None
  }

  predicate IsClicked<K>(states: map<K, ButtonState>, k: K)
  {
    Lookup(states, k) == Some(Clicked)
  }

  function IsHeld<K>(states: map<K, ButtonState>, k: K): (held: bool)
    ensures IsClicked(states, k) ==> held
    ensures held <==> k in states && states[k] != Released
  {
    k in states && (states[k] == Clicked || states[k] == Held)
  }

  /** The state of a button that is down this frame, from its recorded state. */
  function PressStep(before: Option<ButtonState>): (after: ButtonState)
    ensures after != Released
    ensures after == Clicked <==> before !in {Some(Clicked), Some(Held)}
  {
    match before
    case None => Clicked
    case Some(Released) => Clicked
    case Some(Clicked) => Held
    case Some(Held) => Held
  }

  /** The states after the first pass of `update`: every button that is down has taken a step. */
  function AfterPress<K>(states: map<K, ButtonState>, pressed: set<K>): (after: map<K, ButtonState>)
    ensures after.Keys == states.Keys + pressed
  {
    map k | k in states.Keys + pressed :: if k in pressed then PressStep(Lookup(states, k)) else states[k]
  }

  /** Buttons recorded as down that are not down this frame. */
  function ReleasedSet<K>(states: map<K, ButtonState>, pressed: set<K>): (released: set<K>)
    ensures released <= states.Keys
  {
    set k | k in states && states[k] != Released && k !in pressed
  }

  /** The states after a whole frame of `update`. */
  function NextStates<K(!new)>(states: map<K, ButtonState>, pressed: set<K>): (next: map<K, ButtonState>)
    ensures next.Keys == states.Keys + pressed
    ensures forall k :: IsHeld(next, k) <==> k in pressed
    ensures forall k :: IsClicked(next, k) <==> k in pressed && !IsHeld(states, k)
    ensures forall k :: k !in pressed ==> Lookup(next, k) == if k in states then Some(Released) else None
  {
    var after := AfterPress(states, pressed);
    var next := after + map k | k in ReleasedSet(after, pressed) :: Released;
    assert forall k :: k in pressed ==> k in next && next[k] == PressStep(Lookup(states, k));
    next
  }

  /** The first loop of `update`: each button that is down takes a step. */
  method PressAll<K>(states: map<K, ButtonState>, pressed: set<K>) returns (r: map<K, ButtonState>)
    ensures r == AfterPress(states, pressed)
  {
    r := states;
    var todo := pressed;
    ghost var done := {};
    while todo != {}
      invariant done + todo == pressed && done !! todo
      invariant r.Keys == states.Keys + done
      invariant forall j :: j in r ==> r[j] == if j in done then PressStep(Lookup(states, j)) else states[j]
      decreases todo
    {
      var k :| k in todo;
      assert Lookup(r, k) == Lookup(states, k);
      if k !in r || r[k] == Released {
        r := r[k := Clicked];
      } else if r[k] == Clicked {
        r := r[k := Held];
      }
      done := done + {k};
      todo := todo - {k};
    }
    PointwiseAfterPress(states, pressed, r);
  }

  lemma PointwiseAfterPress<K>(states: map<K, ButtonState>, pressed: set<K>, r: map<K, ButtonState>)
    requires r.Keys == states.Keys + pressed
    requires forall j :: j in r ==> r[j] == if j in pressed then PressStep(Lookup(states, j)) else states[j]
    ensures r == AfterPress(states, pressed)
  {
    assert r.Keys == AfterPress(states, pressed).Keys;
  }

  /** The second loop of `update`: the buttons recorded as down that are no longer down. */
  method CollectReleased<K>(states: map<K, ButtonState>, pressed: set<K>) returns (released: seq<K>)
    ensures forall k :: k in released <==> k in ReleasedSet(states, pressed)
  {
    released := [];
    var todo := states.Keys;
    while todo != {}
      invariant todo <= states.Keys
      invariant forall k :: k in released <==> k in ReleasedSet(states, pressed) && k !in todo
      decreases todo
    {
      var k :| k in todo;
      if (states[k] == Held || states[k] == Clicked) && k !in pressed {
        released := released + [k];
      }
      todo := todo - {k};
    }
  }

  /** The third loop of `update`: every collected button is recorded as Released. */
  method MarkReleased<K>(states: map<K, ButtonState>, released: seq<K>) returns (r: map<K, ButtonState>)
    ensures r.Keys == states.Keys + set k | k in released
    ensures forall k :: k in r ==> r[k] == if k in released then Released else states[k]
  {
    r := states;
    for i := 0 to |released|
      invariant r.Keys == states.Keys + set k | k in released[..i]
      invariant forall k :: k in r ==> r[k] == if k in released[..i] then Released else states[k]
    {
      assert released[..i + 1] == released[..i] + [released[i]];
      r := r[released[i] := Released];
    }
    assert released[..|released|] == released;
  }

  /** Marking the collected buttons of the pressed states as Released completes the frame. */
  lemma MarkedIsNext<K(!new)>(states: map<K, ButtonState>, pressed: set<K>, released: seq<K>, r: map<K, ButtonState>)
    requires forall k :: k in released <==> k in ReleasedSet(AfterPress(states, pressed), pressed)
    requires r.Keys == AfterPress(states, pressed).Keys + set k | k in released
    requires forall k :: k in r ==> r[k] == if k in released then Released else AfterPress(states, pressed)[k]
    ensures r == NextStates(states, pressed)
  {
    var next := NextStates(states, pressed);
    assert r.Keys == next.Keys;
    forall k | k in r
      ensures r[k] == next[k]
    {
    }
  }

  class InputState {
    var keyState: map<Scancode, ButtonState>
    var mouseButtonState: map<MouseButton, ButtonState>
    var mouseX: i32
    var mouseY: i32

    constructor ()
      ensures keyState == map[] && mouseButtonState == map[]
      ensures mouseX == 0 && mouseY == 0
    {
      keyState := map[];
      mouseButtonState := map[];
      mouseX := 0;
      mouseY := 0;
    }

    function KeyIsHeld(key: Scancode): (held: bool)
      reads this
      ensures held <==> key in keyState && keyState[key] != Released
    {
      IsHeld(keyState, key)
    }

    function KeyIsClicked(key: Scancode): (clicked: bool)
      reads this
      ensures clicked ==> KeyIsHeld(key)
    {
      IsClicked(keyState, key)
    }

    function MouseButtonIsHeld(button: MouseButton): (held: bool)
      reads this
      ensures held <==> button in mouseButtonState && mouseButtonState[button] != Released
    {
      IsHeld(mouseButtonState, button)
    }

    function MouseButtonIsClicked(button: MouseButton): (clicked: bool)
      reads this
      ensures clicked ==> MouseButtonIsHeld(button)
    {
      IsClicked(mouseButtonState, button)
    }

    /** One frame of input, given the keys and buttons that are down and the mouse position. */
    method Update(pressedKeys: set<Scancode>, pressedButtons: set<MouseButton>, x: i32, y: i32)
      modifies this
      ensures keyState == NextStates(old(keyState), pressedKeys)
      ensures mouseButtonState == NextStates(old(mouseButtonState), pressedButtons)
      ensures mouseX == x && mouseY == y
    {
      keyState := PressAll(keyState, pressedKeys);
      mouseButtonState := PressAll(mouseButtonState, pressedButtons);

      var releasedKeys := CollectReleased(keyState, pressedKeys);
      var releasedButtons := CollectReleased(mouseButtonState, pressedButtons);

      ghost var pressedKeyState, pressedButtonState := keyState, mouseButtonState;
      keyState := MarkReleased(keyState, releasedKeys);
      mouseButtonState := MarkReleased(mouseButtonState, releasedButtons);
      MarkedIsNext(old(keyState), pressedKeys, releasedKeys, keyState);
      MarkedIsNext(old(mouseButtonState), pressedButtons, releasedButtons, mouseButtonState);

      mouseX := x;
      mouseY := y;
    }
  }
}
