/** The game's tuning constants (flappybird2.py lines 11-19) and the sizes the
    entity classes hard-code. Vertical bird quantities are kept in quarter
    pixels, the finest step the program's float arithmetic ever takes. */
module Constants {
  const ScreenWidth: int := 400
  const ScreenHeight: int := 600

  /** Sub-pixel units per pixel for the bird's y and velocity. */
  const Quarter: int := 4
  /** GRAVITY = 0.25 pixels per frame per frame, in quarter pixels. */
  const GravityQ: int := 1
  const FlapStrength: int := -7

  const PipeSpeed: int := 3
  const PipeGap: int := 150
  const PipeWidth: int := 50
  /** Milliseconds between pipe spawns. */
  const PipeFrequency: int := 1500
  /** Range of randint(150, SCREEN_HEIGHT - 150) for a pipe's gap centre. */
  const MinGapY: int := 150
  const MaxGapY: int := ScreenHeight - 150

  const CoinSize: int := 30
  /** Side of the coin's collision box, larger than its sprite. */
  const CoinBox: int := CoinSize + 10

  const BirdX: int := 50
  const BirdWidth: int := 40
  const BirdHeight: int := 30
  const MaxAngle: int := 30
  const AngleDecay: int := 3

  /** Entities whose x is not beyond this are dropped by the cleanup. */
  const OffscreenX: int := -50
}
