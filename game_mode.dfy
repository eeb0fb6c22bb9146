/** Switching between the level editor and the game, src/main.rs. */
module Modes {
  import opened Float64
  import opened Events
  import opened LevelGrid
  import opened CameraControl

  datatype GameMode = Editor | Game

  /** The mode after a frame in which P was clicked or not. */
  function NextMode(mode: GameMode, pClicked: bool): (next: GameMode)
    ensures next != mode <==> pClicked
  {
    if !pClicked then mode
    else match mode
      case Editor => Game
      case Game => Editor
  }

  /** Two frames with P clicked lead back to the mode of the start. */
  lemma SwitchTwice(mode: GameMode)
    ensures NextMode(NextMode(mode, true), true) == mode
  {
  }

  /**
   * `switch_modes`: P toggles the mode; entering the game puts the camera at
   * the level's spawn point facing along the x axis.
   */
  method SwitchModes(gameMode: GameMode, input: InputState, camera: Camera, level: Level) returns (next: GameMode)
    modifies camera
    ensures next == NextMode(gameMode, input.KeyIsClicked(SCANCODE_P))
    ensures gameMode == Editor && next == Game ==>
              camera.position == Vector2(level.spawnx, level.spawny) && camera.rotation == ZERO
    ensures !(gameMode == Editor && next == Game) ==>
              camera.position == old(camera.position) && camera.rotation == old(camera.rotation)
    ensures camera.speed == old(camera.speed) && camera.rotationSpeed == old(camera.rotationSpeed)
    ensures camera.fov == old(camera.fov)
  {
    if input.KeyIsClicked(SCANCODE_P) && gameMode == Editor {
      camera.position := camera.position.(x := level.spawnx);
      camera.position := camera.position.(y := level.spawny);
      camera.rotation := ZERO;
      return Game;
    } else if input.KeyIsClicked(SCANCODE_P) && gameMode == Game {
      return Editor;
    }
    return gameMode;
  }
}
