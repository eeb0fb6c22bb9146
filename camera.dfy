/**
 * The player camera of src/camera.rs. Its numbers are f64 bit patterns;
 * `handle_key_input` only chooses between the constants 2.0, -2.0, 1.0,
 * -1.0 and 0.0, so no arithmetic on them is needed.
 */
module CameraControl {
  import opened Float64
  import opened Events

  /** `sprite::Vector2f64`. */
  datatype Vector2 = Vector2(x: F64, y: F64)

  class Camera {
    var position: Vector2
    var rotation: F64
    var speed: F64
    var rotationSpeed: F64
    var fov: F64

    /** `Camera::new`: at rest, with the given placement and field of view. */
    constructor (x: F64, y: F64, camRotation: F64, camFov: F64)
      ensures position == Vector2(x, y) && rotation == camRotation && fov == camFov
      ensures speed == ZERO && rotationSpeed == ZERO
    {
      position := Vector2(x, y);
      rotation := camRotation;
      fov := camFov;
      speed := ZERO;
      rotationSpeed := ZERO;
    }

    /**
     * Up/Down set the forward speed to 2/-2 on the frame they are clicked and
     * Left/Right the turning speed to -1/1; the speed drops to 0 once neither
     * key of the pair is down, and is kept while one of them is held.
     */
    method HandleKeyInput(input: InputState)
      modifies this
      ensures input.KeyIsClicked(SCANCODE_UP) ==> speed == TWO
      ensures !input.KeyIsClicked(SCANCODE_UP) && input.KeyIsClicked(SCANCODE_DOWN) ==> speed == NEG_TWO
      ensures !input.KeyIsHeld(SCANCODE_UP) && !input.KeyIsHeld(SCANCODE_DOWN) ==> speed == ZERO
      ensures (!input.KeyIsClicked(SCANCODE_UP) && !input.KeyIsClicked(SCANCODE_DOWN)
               && (input.KeyIsHeld(SCANCODE_UP) || input.KeyIsHeld(SCANCODE_DOWN))) ==> speed == old(speed)
      ensures input.KeyIsClicked(SCANCODE_LEFT) ==> rotationSpeed == NEG_ONE
      ensures !input.KeyIsClicked(SCANCODE_LEFT) && input.KeyIsClicked(SCANCODE_RIGHT) ==> rotationSpeed == ONE
      ensures !input.KeyIsHeld(SCANCODE_LEFT) && !input.KeyIsHeld(SCANCODE_RIGHT) ==> rotationSpeed == ZERO
      ensures (!input.KeyIsClicked(SCANCODE_LEFT) && !input.KeyIsClicked(SCANCODE_RIGHT)
               && (input.KeyIsHeld(SCANCODE_LEFT) || input.KeyIsHeld(SCANCODE_RIGHT))) ==> rotationSpeed == old(rotationSpeed)
      ensures position == old(position) && rotation == old(rotation) && fov == old(fov)
    {
      if input.KeyIsClicked(SCANCODE_UP) {
        speed := TWO;
      } else if input.KeyIsClicked(SCANCODE_DOWN) {
        speed := NEG_TWO;
      } else if !input.KeyIsHeld(SCANCODE_UP) && !input.KeyIsHeld(SCANCODE_DOWN) {
        speed := ZERO;
      }

      if input.KeyIsClicked(SCANCODE_LEFT) {
        rotationSpeed := NEG_ONE;
      } else if input.KeyIsClicked(SCANCODE_RIGHT) {
        rotationSpeed := ONE;
      } else if !input.KeyIsHeld(SCANCODE_LEFT) && !input.KeyIsHeld(SCANCODE_RIGHT) {
        rotationSpeed := ZERO;
      }
    }
  }
}
