/** Window constants and the sizes of the sprite images the game logic depends on. */
module Screen {

  /** Width of the game window in pixels. */
  const WinWidth: int := 500

  /** Every new pipe is created this far to the right of the window's left edge. */
  const SpawnX: int := WinWidth + 200

  /** The vertical line where the ground starts: the base strip is drawn there and
      a bird whose bottom edge reaches it has hit the ground. */
  const GroundLine: int := 730

  /** Where a new (or reset) bird starts. */
  const BirdStartX: int := 230
  const BirdStartY: int := 350

  /** The sizes of the loaded images that the game logic reads. The game uses the
      image height of the bird (ground contact), the width and height of the
      pipe image (eviction, top-pipe placement) and the width of the base tile
      (ground scrolling). */
  datatype Assets = Assets(birdHeight: int, pipeWidth: int, pipeHeight: int, baseWidth: int)
  {
    predicate Valid() {
      birdHeight > 0 && pipeWidth > 0 && pipeHeight > 0 && baseWidth > 0
    }
  }
}
