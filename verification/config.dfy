/** Fixed parameters of the renderer: the console size, the world size and the
    player/ray constants. Floats become reals. */
module Config {

  /** Console screen size in character cells. */
  const ScreenWidth: int := 120
  const ScreenHeight: int := 40

  /** World dimensions in cells. */
  const MapWidth: int := 32
  const MapHeight: int := 32

  /** Field of view (radians), maximum rendering distance, walking speed. */
  const Fov: real := 3.14159 / 4.0
  const Depth: real := 32.0
  const Speed: real := 5.0

  /** Increment of the ray march (a local of the column loop in main.cpp). */
  const StepSize: real := 0.1

  /** Number of increments after which the march reaches Depth exactly; the
      source has no such constant, its loop stops on the distance instead. */
  const MaxSteps: nat := 320
}
