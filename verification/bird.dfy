/** The player's bird (class Bird, flappybird2.py lines 45-62). Its y and
    velocity are Python floats that only ever change by 0.25, -7 or another
    such value, so they are held exactly as integers in quarter pixels. */
module Birds {
  import opened Constants
  import opened Rects

  /** `yq` and `vq` are y and velocity in quarter pixels; `rect` is the
      collision box, whose y is the truncated pixel position. */
  datatype Bird = Bird(yq: int, vq: int, angle: int, rect: Rect)

  /** The whole pixel a quarter-pixel value lands on when stored into a Rect
      coordinate: truncation toward zero. */
  function PixelOf(q: int): (px: int)
    ensures 0 <= q ==> 0 <= Quarter * px <= q < Quarter * px + Quarter
    ensures q < 0 ==> Quarter * px - Quarter < q <= Quarter * px <= 0
  {
    if q >= 0 then q / Quarter else -((-q) / Quarter)
  }

  /** max(lo, min(v, hi)) */
  function Clamp(v: int, lo: int, hi: int): int
    requires lo <= hi
  {
    if v < lo then lo else if v > hi then hi else v
  }

  /** The box sits at the bird's fixed x with the image's size, at the
      truncated y; the display angle stays within [-30, 30]. */
  predicate Valid(b: Bird) {
    && b.rect == Rect(BirdX, PixelOf(b.yq), BirdWidth, BirdHeight)
    && -MaxAngle <= b.angle <= MaxAngle
  }

  /** Bird.__init__: at rest, halfway down the screen. */
  function NewBird(): (b: Bird)
    ensures Valid(b)
    ensures b.yq == Quarter * (ScreenHeight / 2) && b.vq == 0 && b.angle == 0
  {
    Bird(Quarter * (ScreenHeight / 2), 0, 0, Rect(BirdX, ScreenHeight / 2, BirdWidth, BirdHeight))
  }

  /** Bird.flap: the upward impulse replaces the velocity and pitches the
      bird up; position and box are untouched. */
  function Flap(b: Bird): (r: Bird)
    ensures r.vq == Quarter * FlapStrength && r.angle == MaxAngle
    ensures r.yq == b.yq && r.rect == b.rect
    ensures Valid(b) ==> Valid(r)
  {
    b.(vq := Quarter * FlapStrength, angle := MaxAngle)
  }

  /** Bird.update: gravity, then the new velocity moves the bird; the box
      follows the truncated y; the angle decays by 3 and is clamped. */
  function Update(b: Bird): (r: Bird)
    ensures r.vq == b.vq + GravityQ
    ensures r.yq == b.yq + r.vq
    ensures r.rect.y == PixelOf(r.yq)
    ensures r.rect.x == b.rect.x && r.rect.w == b.rect.w && r.rect.h == b.rect.h
    ensures -MaxAngle <= r.angle <= MaxAngle
    ensures -MaxAngle <= b.angle - AngleDecay <= MaxAngle ==> r.angle == b.angle - AngleDecay
    ensures b.angle - AngleDecay < -MaxAngle ==> r.angle == -MaxAngle
    ensures b.angle - AngleDecay > MaxAngle ==> r.angle == MaxAngle
    ensures Valid(b) ==> Valid(r)
  {
    var vq := b.vq + GravityQ;
    var yq := b.yq + vq;
    b.(yq := yq, vq := vq, rect := b.rect.(y := PixelOf(yq)),
       angle := Clamp(b.angle - AngleDecay, -MaxAngle, MaxAngle))
  }

  /** Whether the bird has left the screen vertically (y < 0 or y > 600). */
  predicate OutOfBounds(b: Bird) {
    b.yq < 0 || b.yq > Quarter * ScreenHeight
  }

  /** `n` frames without a flap. */
  function Fall(b: Bird, n: nat): (r: Bird)
    ensures Valid(b) ==> Valid(r)
    decreases n
  {
    if n == 0 then b else Update(Fall(b, n - 1))
  }

  /** Without flapping, velocity grows by the gravity step each frame and the
      height follows the arithmetic series. */
  lemma {:induction false} FallClosedForm(b: Bird, n: nat)
    ensures Fall(b, n).vq == b.vq + n * GravityQ
    ensures 2 * Fall(b, n).yq == 2 * b.yq + 2 * n * b.vq + n * (n + 1) * GravityQ
    decreases n
  {
    if n > 0 {
      FallClosedForm(b, n - 1);
      var prev := Fall(b, n - 1);
      assert Fall(b, n) == Update(prev);
      SeriesStep(n - 1, b.vq);
    }
  }

  /** The algebra of one more term of the series. */
  lemma SeriesStep(m: int, v: int)
    ensures 2 * m * v + m * (m + 1) + 2 * (v + m + 1) == 2 * (m + 1) * v + (m + 1) * (m + 2)
  {
    assert 2 * (m + 1) * v == 2 * m * v + 2 * v;
    assert (m + 1) * (m + 2) == m * (m + 1) + 2 * (m + 1);
  }

  /** A bird that never flaps, starting at rest from the middle of the screen,
      is on screen after `k` frames exactly when `k` is at most 48. */
  lemma FreeFallLeavesScreen(k: nat)
    ensures !OutOfBounds(Fall(NewBird(), k)) <==> k <= 48
  {
    var t := k * (k + 1);
    FallFromRest(k);
    assert 2 * Fall(NewBird(), k).yq == 2400 + t;
    SquareBound(k);
  }

  lemma FallFromRest(n: nat)
    ensures 2 * Fall(NewBird(), n).yq == 2400 + n * (n + 1)
  {
    var b := NewBird();
    FallClosedForm(b, n);
    assert b.vq == 0 && b.yq == 1200;
    assert n * b.vq == 0;
  }

  /** One more frame of free fall from rest, and whether it is still on screen. */
  lemma FreeFallStep(k: nat)
    requires k > 0
    ensures Fall(NewBird(), k) == Update(Fall(NewBird(), k - 1))
    ensures !OutOfBounds(Update(Fall(NewBird(), k - 1))) <==> k <= 48
  {
    FreeFallLeavesScreen(k);
  }

  /** k(k+1), twice the distance fallen in quarter pixels, stays within
      2400 exactly for the first 48 frames. */
  lemma SquareBound(k: nat)
    ensures 0 <= k * (k + 1)
    ensures k * (k + 1) <= 2400 <==> k <= 48
  {
    if k <= 48 {
      assert k * (k + 1) <= 48 * (k + 1);
    } else {
      assert k * (k + 1) >= 49 * (k + 1);
    }
  }
}
