/** One frame of game_loop (flappybird2.py lines 118-170) as a pure step
    over an explicit session state. The clock, the flap key and the two
    random draws are the step's parameters. */
module Game {
  import opened Constants
  import opened Rects
  import opened Seqs
  import Birds
  import Pipes
  import Coins

  /** The locals of game_loop that live across frames. */
  datatype Session = Session(
    bird: Birds.Bird,
    pipes: seq<Pipes.Pipe>,
    coins: seq<Coins.Coin>,
    score: nat,
    coinsCollected: nat,
    lastPipe: int)

  /** A frame either hands on the session or ends it with the pair that
      game_loop returns. */
  datatype Outcome = Playing(session: Session) | Over(finalScore: nat, finalCoins: nat) {
    function Score(): nat {
      match this
      case Playing(s) => s.score
      case Over(score, _) => score
    }
    function CoinCount(): nat {
      match this
      case Playing(s) => s.coinsCollected
      case Over(_, coins) => coins
    }
  }

  function PipeX(p: Pipes.Pipe): int {
    p.x
  }

  function CoinX(c: Coins.Coin): int {
    c.x
  }

  /** A pipe as a session holds it between frames: well-formed, still on
      screen, already moved at least once, and flagged exactly when it is
      behind the bird. */
  predicate PipeKept(p: Pipes.Pipe) {
    && Pipes.Valid(p)
    && (p.passed <==> Pipes.Behind(p))
    && OffscreenX < p.x <= ScreenWidth - PipeSpeed
  }

  /** A coin as a session holds it between frames. */
  predicate CoinKept(c: Coins.Coin) {
    && Coins.Valid(c)
    && OffscreenX < c.x <= ScreenWidth + PipeWidth - PipeSpeed
  }

  /** What holds of every session between frames: the bird is well-formed and
      on screen, every entity is well-formed, and both lists are ordered by
      x, oldest (leftmost) first. */
  ghost predicate Valid(s: Session) {
    && Birds.Valid(s.bird)
    && !Birds.OutOfBounds(s.bird)
    && (forall p :: p in s.pipes ==> PipeKept(p))
    && (forall c :: c in s.coins ==> CoinKept(c))
    && Increasing(s.pipes, PipeX)
    && Increasing(s.coins, CoinX)
  }

  /** The start of game_loop: a fresh bird, no entities, zero counters, and
      the spawn timer started at the current time. A new game after the
      game-over screen starts here again, so continuing clears everything. */
  function NewSession(now: int): (s: Session)
    ensures Valid(s)
    ensures s.pipes == [] && s.coins == [] && s.score == 0 && s.coinsCollected == 0
    ensures s.bird == Birds.NewBird() && s.lastPipe == now
  {
    Session(Birds.NewBird(), [], [], 0, 0, now)
  }

  /** More than PIPE_FREQUENCY milliseconds since the last pipe. */
  predicate PipeDue(s: Session, now: int) {
    now - s.lastPipe > PipeFrequency
  }

  /** The spawn block: when a pipe is due, append one with the given gap
      centre and restart the timer, and append its coin if the coin draw
      succeeded. A coin never appears without its pipe. */
  function Spawn(s: Session, now: int, gapY: int, spawnCoin: bool): (r: Session)
    requires MinGapY <= gapY <= MaxGapY
    ensures r.bird == s.bird && r.score == s.score && r.coinsCollected == s.coinsCollected
    ensures !PipeDue(s, now) ==> r == s
    ensures PipeDue(s, now) ==> r.pipes == s.pipes + [Pipes.NewPipe(gapY)] && r.lastPipe == now
    ensures |s.coins| <= |r.coins| <= |s.coins| + 1 && r.coins[..|s.coins|] == s.coins
    ensures |r.coins| > |s.coins| <==> PipeDue(s, now) && spawnCoin
    ensures |r.coins| > |s.coins| ==> r.coins[|s.coins|] == Coins.SpawnFor(Pipes.NewPipe(gapY))
  {
    if !PipeDue(s, now) then s
    else
      var pipe := Pipes.NewPipe(gapY);
      var coins := if spawnCoin then s.coins + [Coins.SpawnFor(pipe)] else s.coins;
      s.(pipes := s.pipes + [pipe], coins := coins, lastPipe := now)
  }

  /** The bird's box meets the top or the bottom segment. */
  predicate HitsPipe(box: Rect, p: Pipes.Pipe) {
    Collide(box, p.topRect) || Collide(box, p.bottomRect)
  }

  /** The pipe a frame spawns cannot score in that frame. */
  lemma SpawnScoresNothing(s: Session, now: int, gapY: int, spawnCoin: bool)
    requires MinGapY <= gapY <= MaxGapY
    ensures Pipes.NewlyBehind(Spawn(s, now, gapY, spawnCoin).pipes) == Pipes.NewlyBehind(s.pipes)
  {
    if PipeDue(s, now) {
      Pipes.NewPipeNotBehind(s.pipes, gapY);
    }
  }

  /** For a well-formed pipe and a box of positive size, a hit means that
      the box shares a pixel with the top or the bottom segment. */
  lemma HitsPipeIffSharedPixel(box: Rect, p: Pipes.Pipe)
    requires Positive(box) && Pipes.Valid(p)
    ensures HitsPipe(box, p) <==>
      || (exists px, py :: Contains(box, px, py) && Contains(p.topRect, px, py))
      || (exists px, py :: Contains(box, px, py) && Contains(p.bottomRect, px, py))
  {
    Pipes.ValidSegmentsPositive(p);
    CollideIffSharedPixel(box, p.topRect);
    CollideIffSharedPixel(box, p.bottomRect);
  }

  /** The collision loop, scanning the pipes in order and stopping at the
      first hit: it finds a hit exactly when some pipe is hit. */
  function PipeCollision(box: Rect, ps: seq<Pipes.Pipe>): (hit: bool)
    ensures hit <==> exists i :: 0 <= i < |ps| && HitsPipe(box, ps[i])
    decreases |ps|
  {
    if |ps| == 0 then false
    else if HitsPipe(box, ps[0]) then true
    else PipeCollision(box, ps[1..])
  }

  function MissedBy(box: Rect): Coins.Coin -> bool {
    (c: Coins.Coin) => !Collide(box, c.rect)
  }

  function HitBy(box: Rect): Coins.Coin -> bool {
    (c: Coins.Coin) => Collide(box, c.rect)
  }

  /** The collection loop, statement for statement: scanning a copy of the
      list, each coin the bird's box overlaps is counted and removed. The
      survivors are the untouched coins in their order, and the count is the
      number of coins touched, which is the number removed. */
  method CollectCoins(coins: seq<Coins.Coin>, box: Rect) returns (kept: seq<Coins.Coin>, collected: nat)
    ensures kept == Filter(coins, MissedBy(box))
    ensures collected == |Filter(coins, HitBy(box))|
    ensures collected == |coins| - |kept|
  {
    kept := [];
    collected := 0;
    var i := 0;
    while i < |coins|
      invariant 0 <= i <= |coins|
      invariant kept == Filter(coins[..i], MissedBy(box))
      invariant collected == |Filter(coins[..i], HitBy(box))|
    {
      var c := coins[i];
      CollectOne(coins, i, box);
      if Collide(box, c.rect) {
        collected := collected + 1;
      } else {
        kept := kept + [c];
      }
      i := i + 1;
    }
    assert coins[..i] == coins;
    FilterSplitsLength(coins, MissedBy(box), HitBy(box));
  }

  /** One more coin scanned: it is either counted or kept. */
  lemma CollectOne(coins: seq<Coins.Coin>, i: nat, box: Rect)
    requires i < |coins|
    ensures Filter(coins[..i + 1], MissedBy(box))
      == Filter(coins[..i], MissedBy(box)) + (if Collide(box, coins[i].rect) then [] else [coins[i]])
    ensures |Filter(coins[..i + 1], HitBy(box))|
      == |Filter(coins[..i], HitBy(box))| + (if Collide(box, coins[i].rect) then 1 else 0)
  {
    var c, miss, hit := coins[i], MissedBy(box), HitBy(box);
    assert coins[..i + 1] == coins[..i] + [c];
    FilterSnoc(coins[..i], c, miss);
    FilterSnoc(coins[..i], c, hit);
    assert hit(c) <==> Collide(box, c.rect);
    assert miss(c) <==> !Collide(box, c.rect);
  }

  /** The cleanup comprehensions keep what has not scrolled past -50. */
  predicate PipeOnScreen(p: Pipes.Pipe) {
    p.x > OffscreenX
  }

  predicate CoinOnScreen(c: Coins.Coin) {
    c.x > OffscreenX
  }

  /** What a frame has computed by the time it reaches the collision check. */
  datatype Frame = Frame(
    spawned: Session,
    bird: Birds.Bird,
    pipes: seq<Pipes.Pipe>,
    coins: seq<Coins.Coin>,
    score: nat)

  /** Input, spawning and movement: flap if asked, spawn, update the bird,
      run the update-and-score loop over the pipes, move the coins.
      - The bird's velocity is the flap impulse or the old velocity, plus one
        gravity step, and its y moves by the new velocity.
      - Every pipe and coin already on screen has moved 3 pixels left. A due
        pipe has entered at x = 400 and moved once, and its coin comes with
        it when the coin draw succeeded.
      - The score has risen by exactly the number of unpassed pipes whose
        trailing edge is now left of the bird; the spawned pipe never is.
      - The spawn timer restarts exactly when a pipe was due. */
  function Prepare(s: Session, now: int, flap: bool, gapY: int, spawnCoin: bool): (f: Frame)
    requires MinGapY <= gapY <= MaxGapY
    ensures f.bird.vq == (if flap then Quarter * FlapStrength else s.bird.vq) + GravityQ
    ensures f.bird.yq == s.bird.yq + f.bird.vq
    ensures |f.pipes| == |s.pipes| + (if PipeDue(s, now) then 1 else 0)
    ensures forall i :: 0 <= i < |s.pipes| ==>
      f.pipes[i].x == s.pipes[i].x - PipeSpeed && f.pipes[i].gapY == s.pipes[i].gapY
    ensures PipeDue(s, now) ==>
      var p := f.pipes[|s.pipes|];
      p.x == ScreenWidth - PipeSpeed && p.gapY == gapY && !p.passed
    ensures |f.coins| == |s.coins| + (if PipeDue(s, now) && spawnCoin then 1 else 0)
    ensures forall i :: 0 <= i < |s.coins| ==>
      f.coins[i].x == s.coins[i].x - PipeSpeed && f.coins[i].y == s.coins[i].y
    ensures f.score == s.score + Pipes.NewlyBehind(s.pipes)
    ensures f.spawned.coinsCollected == s.coinsCollected
    ensures f.spawned.lastPipe == if PipeDue(s, now) then now else s.lastPipe
    ensures f.spawned == Spawn(if flap then s.(bird := Birds.Flap(s.bird)) else s, now, gapY, spawnCoin)
    ensures f.bird == Birds.Update(f.spawned.bird)
    ensures f.pipes == Pipes.AdvanceAll(f.spawned.pipes) && f.coins == Coins.MoveAll(f.spawned.coins)
  {
    var flapped := if flap then s.(bird := Birds.Flap(s.bird)) else s;
    var spawned := Spawn(flapped, now, gapY, spawnCoin);
    var pipes := Pipes.AdvanceAll(spawned.pipes);
    Pipes.FlipsCountsNewlyBehind(spawned.pipes);
    SpawnScoresNothing(flapped, now, gapY, spawnCoin);
    Frame(spawned, Birds.Update(spawned.bird), pipes, Coins.MoveAll(spawned.coins),
          spawned.score + Pipes.Flips(spawned.pipes, pipes))
  }

  /** Collision, collection, cleanup and the bounds check, in that order.
      - The session ends exactly when the bird's box meets a segment of a
        pipe, or the bird is off the top or bottom of the screen.
      - The score is the one reached before the checks, also when the session
        ends.
      - The coin count rises by the number of coins removed, unless a pipe
        was hit, which ends the frame before collection.
      - A continuing session keeps exactly the on-screen pipes and the
        untouched on-screen coins, in order, none of them touching the bird. */
  function Resolve(f: Frame): (o: Outcome)
    ensures o.Over? <==>
      (exists i :: 0 <= i < |f.pipes| && HitsPipe(f.bird.rect, f.pipes[i])) || Birds.OutOfBounds(f.bird)
    ensures o.Score() == f.score
    ensures PipeCollision(f.bird.rect, f.pipes) ==> o.CoinCount() == f.spawned.coinsCollected
    ensures !PipeCollision(f.bird.rect, f.pipes) ==>
      o.CoinCount() == f.spawned.coinsCollected + (|f.coins| - |Filter(f.coins, MissedBy(f.bird.rect))|)
    ensures o.Playing? ==>
      && o.session.bird == f.bird
      && o.session.pipes == Filter(f.pipes, PipeOnScreen)
      && o.session.coins == Filter(Filter(f.coins, MissedBy(f.bird.rect)), CoinOnScreen)
      && o.session.lastPipe == f.spawned.lastPipe
    ensures o.Playing? ==>
      && !Birds.OutOfBounds(o.session.bird)
      && (forall p :: p in o.session.pipes ==> !HitsPipe(o.session.bird.rect, p) && p.x > OffscreenX)
      && (forall c :: c in o.session.coins ==> !Collide(o.session.bird.rect, c.rect) && c.x > OffscreenX)
  {
    var box := f.bird.rect;
    FilterSplitsLength(f.coins, MissedBy(box), HitBy(box));
    if PipeCollision(box, f.pipes) then Over(f.score, f.spawned.coinsCollected)
    else
      var collected := f.spawned.coinsCollected + |Filter(f.coins, HitBy(box))|;
      var pipes := Filter(f.pipes, PipeOnScreen);
      var coins := Filter(Filter(f.coins, MissedBy(box)), CoinOnScreen);
      if Birds.OutOfBounds(f.bird) then Over(f.score, collected)
      else Playing(Session(f.bird, pipes, coins, f.score, collected, f.spawned.lastPipe))
  }

  /** One frame of the game: Prepare, then Resolve. The score rises by
      exactly the number of unpassed pipes that get behind the bird in this
      frame (also when the frame ends the session), the coin count never
      goes down, and a session that goes on has its bird on screen, clear of
      every pipe and coin it keeps. */
  function Step(s: Session, now: int, flap: bool, gapY: int, spawnCoin: bool): (o: Outcome)
    requires MinGapY <= gapY <= MaxGapY
    ensures o.Score() == s.score + Pipes.NewlyBehind(s.pipes)
    ensures o.Score() >= s.score && o.CoinCount() >= s.coinsCollected
    ensures o.Playing? ==>
      && !Birds.OutOfBounds(o.session.bird)
      && (forall p :: p in o.session.pipes ==> !HitsPipe(o.session.bird.rect, p))
      && (forall c :: c in o.session.coins ==> !Collide(o.session.bird.rect, c.rect))
  {
    Resolve(Prepare(s, now, flap, gapY, spawnCoin))
  }
}
