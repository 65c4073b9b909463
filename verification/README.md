# Flappy Bird with coins: a Dafny model of the frame logic

This project models the game logic of `flappybird2.py`, a single-screen
side-scroller. A bird falls under constant gravity and jumps when the player
flaps. It must fly through the gaps of pipes that scroll in from the right.
Bonus coins sometimes appear in a pipe's gap and can be collected. The model
lifts one frame of `game_loop` out of the pygame loop and writes it as a pure
function `Game.Step` over an explicit `Session`. The session holds the bird,
the ordered pipe and coin lists, the score, the coin count and the pipe-spawn
timer.

Modules, leaf first:

- `Constants`: the game's constants and the fixed sizes the classes use.
- `Rects`: integer rectangles and the overlap test that stands in for
  `Rect.colliderect`.
- `Seqs`: the order-preserving filter behind the cleanup comprehensions and
  the coin-removal loop, with its laws.
- `Birds`: `Bird.__init__`, `flap` and `update`. `y` and `velocity` are held
  exactly in quarter pixels (`yq`, `vq`). `0.25`, `-7` and `300` are all
  whole multiples of a quarter, so nothing is lost. Storing `y` into the
  rectangle truncates toward zero (`PixelOf`).
- `Pipes`: `Pipe.__init__` with the gap centre passed in, `Pipe.update`, the
  once-only pass flag, and the update-and-score loop.
- `Coins`: `Coin.__init__`, `Coin.update`, and where a coin is placed when it
  spawns with a pipe.
- `Game`: the session, the spawn block, pipe collision, coin collection,
  cleanup, the bounds check, and `Step`, which runs them in the program's
  order.
- `Play`: a run over a sequence of per-frame inputs, the invariant every
  frame keeps, and the never-flap scenario.

The clock reading, the flap key and the two random draws are parameters of
`Step`. These are `now`, `flap`, `gapY` (with `150 <= gapY <= 450`, the range
of `randint(150, 450)`) and `spawnCoin` (the outcome of
`random.random() < 0.8`).

In these places the code's behaviour is easy to misread, and the model
follows the code:

- Scoring happens inside the pipe-update loop, before the collision check
  (flappybird2.py:143-156). A pipe passed in the frame the bird dies still
  counts (`Game.Step`).
- The tests are strict. A pipe scores when `x + 50 < 50`. Cleanup keeps
  `x > -50`, so an entity at exactly `-50` is dropped. A pipe spawns only
  when more than 1500 ms have passed.
- The out-of-bounds check runs after coin collection and cleanup. Coins
  touched in the frame the bird leaves the screen still count. Coins touched
  in a frame that hits a pipe do not.
- The coin's collision box is 40 x 40 anchored at the coin's `(x, y)`:
  `COIN_SIZE + 10` widens the box to the right and downward only. The
  coin's `y` is the gap centre minus `150 // 4 = 37`.

The overlap test `Rects.Collide` is the half-open interval test
`a.x < b.x + b.w && b.x < a.x + a.w` (likewise for y). It is taken as what
`colliderect` computes for rectangles of positive size. Every rectangle in
the game has positive size: pipe segments are at least 75 high, and the bird
and coin boxes are fixed. `Rects.CollideIffSharedPixel` shows that the test
means "the two boxes share a pixel", and `Game.HitsPipeIffSharedPixel`
carries that meaning over to a hit on either segment of a well-formed pipe.

## Model

| member | source | states |
|---|---|---|
| Rects.CollideIffSharedPixel | flappybird2.py:155 | For boxes of positive size, the overlap test holds exactly when some pixel lies in both boxes. |
| Seqs.Filter | flappybird2.py:165-166 | The filter's output is no longer than its input. An element is in the output exactly when it is in the input and is kept. |
| Seqs.FilterAppend | flappybird2.py:165-166 | Filtering a concatenation is the concatenation of the filtered parts. |
| Seqs.FilterKeepsOrder | flappybird2.py:165-166 | The survivors appear in their original relative order, taken from strictly increasing positions of the input. |
| Seqs.FilterKeepsIncreasing | flappybird2.py:165-166 | Filtering a list ordered by x leaves it ordered by x. |
| Seqs.FilterSplitsLength | flappybird2.py:159-162 | The kept and the removed elements together account for the whole list. |
| Seqs.FilterIdentityIff | flappybird2.py:165-166 | The filter removes nothing exactly when every element is kept. |
| Birds.PixelOf | flappybird2.py:60 | Storing a quarter-pixel y into the rectangle truncates it toward zero, for both signs. |
| Birds.NewBird | flappybird2.py:46-51 | A new bird rests at y = 300 with angle 0. Its box is the 40 x 30 box at x = 50, synchronised with y. |
| Birds.Flap | flappybird2.py:53-55 | Velocity becomes -7 and the angle 30. Position and box are unchanged, and a well-formed bird stays well-formed. |
| Birds.Update | flappybird2.py:57-62 | Velocity grows by 0.25, then y grows by the new velocity. The box's y follows the truncated y. The angle decays by 3 and is clamped to [-30, 30] from both sides. |
| Birds.FallClosedForm | flappybird2.py:57-59 | After n frames without a flap, velocity is v + n/4 and y is y + n*v + n(n+1)/8 (in pixels). |
| Birds.FreeFallLeavesScreen | flappybird2.py:169 | A fresh bird that never flaps is on screen after k frames exactly when k is at most 48. |
| Pipes.NewPipe | flappybird2.py:70-78 | For a gap centre in [150, 450], top height + 150 + bottom height = 600. The bottom segment starts at gapY + 75 and reaches the floor. Both heights are at least 75, and both are 225 when gapY = 300. The pipe starts at x = 400, unpassed. |
| Pipes.Move | flappybird2.py:80-83 | x drops by exactly 3 and both boxes take the new x. Gap, heights, width, flag and the boxes' y, width and height are unchanged. |
| Pipes.Advance | flappybird2.py:143-148 | After one loop turn the flag is set exactly when it was already set or the moved pipe's trailing edge is left of x = 50. The flag never goes back. Apart from the flag the pipe moves as Pipe.update says. |
| Pipes.AdvanceAll | flappybird2.py:143-148 | Every pipe scrolls 3 pixels left keeping its gap and well-formedness. Its flag is set exactly when it was already set or the pipe is now behind the bird. The list keeps its length. |
| Pipes.Flips | flappybird2.py:143-148 | The number of flipped flags never exceeds the number of pipes. |
| Pipes.UpdateAndScore | flappybird2.py:143-148 | The statement-level loop produces the frame's pipe list, and raises the score by exactly the number of flags that flipped. |
| Pipes.FlipsCountsNewlyBehind | flappybird2.py:143-148 | The loop flips the flag of exactly those pipes that were not yet passed and whose moved trailing edge is left of x = 50, so the number of flips equals that count. |
| Pipes.PassedEarnNothing | flappybird2.py:146 | Pipes that were already passed earn nothing. |
| Pipes.FlipsZeroIff | flappybird2.py:146-148 | A frame earns no point exactly when no pipe's pass flag flips in it. |
| Pipes.ScoresOnce | flappybird2.py:146-148 | Over any number of frames a pipe earns exactly one point if it ends passed having started unpassed, and none otherwise. |
| Pipes.ScoresWhenCrossing | flappybird2.py:146 | For a pipe whose flag matches its position, the flag flips in exactly the frame its trailing edge crosses the bird's x. |
| Coins.NewCoin | flappybird2.py:95-98 | A coin's box is the 40 x 40 box anchored at its position. |
| Coins.Move | flappybird2.py:100-102 | x drops by exactly 3 and the box follows. y and the box's y and size are unchanged. |
| Coins.MoveAll | flappybird2.py:150-151 | Every coin scrolls 3 pixels left at its height and stays well-formed. The list keeps its length. |
| Coins.SpawnFor | flappybird2.py:137-139 | A coin spawned with a pipe sits at x = 450 and y = gapY - 37. Its box lies wholly inside the pipe's gap, so it touches neither segment at any x. |
| Game.NewSession | flappybird2.py:109-116 | A new session, including the one that starts after the game-over screen, has a fresh bird, no pipes or coins, zero score and coins, and the timer at the current time. It satisfies the session invariant. |
| Game.Spawn | flappybird2.py:130-139 | A pipe is appended exactly when more than 1500 ms have passed, and the timer is then reset. At most one coin is appended, only in a frame that spawns a pipe and wins the coin draw, and it is that pipe's coin. Nothing else changes. |
| Game.SpawnScoresNothing | flappybird2.py:130-148 | The pipe a frame spawns enters at x = 400 and cannot score in that frame. |
| Game.HitsPipeIffSharedPixel | flappybird2.py:155 | For a well-formed pipe and a box of positive size, a hit means the box shares a pixel with the top or the bottom segment. |
| Game.PipeCollision | flappybird2.py:154-156 | The early-exit scan finds a hit exactly when some pipe's top or bottom box overlaps the bird's box. |
| Game.CollectCoins | flappybird2.py:159-162 | The statement-level loop keeps exactly the coins the bird does not touch, in order. The count equals the number of coins touched, which is the number removed. |
| Game.Prepare | flappybird2.py:122-151 | After input, spawning and movement the bird's velocity is the flap impulse (or the old velocity) plus 0.25, and y moves by it. Every pipe and coin already present is 3 pixels further left with its gap or height unchanged. A due pipe enters at x = 400, moves once and is unpassed, and its coin comes only with a won coin draw. The score has risen by exactly the number of unpassed pipes now behind the bird, and the timer restarts exactly when a pipe was due. |
| Game.Resolve | flappybird2.py:153-170 | The session ends exactly when the bird's box meets a pipe segment or the bird's y is below 0 or above 600. The score reached before the checks is kept, also on death. Coins rise by the number removed unless a pipe was hit. A continuing session keeps exactly the on-screen pipes and the untouched on-screen coins, in order, none touching the bird. |
| Game.Step | flappybird2.py:118-170 | The score rises by exactly the number of unpassed pipes that get behind the bird in this frame, also in a frame that ends the session. The coin count never goes down. A session that goes on has the bird on screen, clear of every pipe and coin it keeps. |
| Play.AdvanceKeepsOrder | flappybird2.py:143-148 | The update-and-score loop keeps every pipe well-formed, keeps each flag saying whether its pipe is behind the bird, and keeps the pipes ordered by x. |
| Play.MoveKeepsOrder | flappybird2.py:150-151 | The coin update loop keeps every coin well-formed and the coins ordered by x. |
| Play.StepKeepsValid | flappybird2.py:118-170 | Each continuing frame keeps the session invariant: the box follows the bird, the angle stays in [-30, 30], every flag says whether its pipe is behind the bird, nothing at x <= -50 survives, and both lists stay ordered by x. |
| Play.Next | flappybird2.py:118-170 | Once game_loop has returned, further input changes nothing. Otherwise the frame never lowers score or coins. |
| Play.Run | flappybird2.py:118-170 | Over any number of frames the score and the coin count never go down. |
| Play.RunKeepsValid | flappybird2.py:118-170 | A session still running after any number of frames satisfies the invariant. |
| Play.PrepareEarly | flappybird2.py:130-151 | In each of the first 49 frames without a flap, whatever the clock and the draws, the bird has fallen freely, no pass flag flips, every pipe is at x >= 253 and every coin at x >= 303. |
| Play.ResolveEarly | flappybird2.py:153-170 | In a frame of a player who has never flapped (a bird in free fall from the start, nothing scored or collected yet, every pipe unpassed, all pipes and coins right of the bird's box), nothing is hit or collected, and the session ends exactly when the bird leaves the screen, with score 0 and no coins. |
| Play.NoFlapFalls | flappybird2.py:118-170 | A player who never flaps is still playing after each of the first 48 frames, with score 0 and no coins, whenever pipes and coins spawn. |
| Play.NoFlapGameOver | flappybird2.py:118-170 | A player who never flaps loses in frame 49 by falling off the screen, with score 0 and no coins, whatever the clock readings and random draws. |

## Left out

- Rendering: every `draw` method, `screen.fill` and `blit`, fonts, and the game-over screen. They only produce output.
- Platform setup and assets: `pygame.init`, the window, image loading and asset paths.
- The clock: `pygame.time.get_ticks` is the `now` parameter of `Game.Step`. `clock.tick(60)` only paces frames.
- Event polling: the SPACE key is the per-frame `flap` boolean. Several presses in one frame flap once, since `flap` overwrites the same two fields.
- Quit handling (flappybird2.py:123-124, 209-220): it is I/O-driven control flow. A quit while playing sets `running = False` and finishes the frame. Unless that frame ends the session, `game_loop` then returns `None`, and `main` fails unpacking it (flappybird2.py:193) instead of exiting cleanly. That behaviour is not modelled.
- Randomness: `random.randint` and `random.random` are the `gapY` and `spawnCoin` parameters.
- `COIN_FREQUENCY` and `last_coin`: dead code, never used to trigger anything.
- `Rect.colliderect` internals: replaced by `Rects.Collide`, which agrees with it for the positive-size rectangles the game creates. pygame's normalisation of zero or negative sizes is not modelled.
- Float encoding: y and velocity are exact quarter-pixel integers. Over a frame count where the doubles stay exact, this equals the program's float arithmetic.
- The identity-based `coins.remove(coin)` is modelled as filtering by overlap. The two agree because each coin object appears once in the list.
