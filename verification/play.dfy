/** Sessions over many frames: the invariant every frame keeps, a run over a
    sequence of per-frame inputs, and the never-flap scenario. */
module Play {
  import opened Constants
  import opened Rects
  import opened Seqs
  import Birds
  import Pipes
  import Coins
  import opened Game

  /** A pipe right after spawning and before the frame's move. */
  predicate PipeFresh(p: Pipes.Pipe) {
    && Pipes.Valid(p)
    && (p.passed <==> Pipes.Behind(p))
    && p.x <= ScreenWidth
  }

  /** Spawning keeps the pipes well-formed and ordered: the new pipe enters
      at the right edge, right of every pipe already moved. */
  lemma SpawnKeepsOrder(s: Session, now: int, gapY: int, spawnCoin: bool)
    requires Valid(s) && MinGapY <= gapY <= MaxGapY
    ensures var r := Spawn(s, now, gapY, spawnCoin);
      && (forall p :: p in r.pipes ==> PipeFresh(p))
      && (forall c :: c in r.coins ==> Coins.Valid(c) && c.x <= ScreenWidth + PipeWidth)
      && Increasing(r.pipes, PipeX)
      && Increasing(r.coins, CoinX)
  {
    var r := Spawn(s, now, gapY, spawnCoin);
    if PipeDue(s, now) {
      assert forall j :: 0 <= j < |s.pipes| ==> s.pipes[j] in s.pipes;
      assert forall j :: 0 <= j < |s.coins| ==> s.coins[j] in s.coins;
      if |r.coins| > |s.coins| {
        assert r.coins == s.coins + [r.coins[|s.coins|]];
      } else {
        assert r.coins == s.coins;
      }
    }
  }

  /** The update-and-score loop keeps every pipe well-formed, keeps each
      pass flag in step with the pipe's position, and keeps the order. */
  lemma AdvanceKeepsOrder(ps: seq<Pipes.Pipe>)
    requires forall p :: p in ps ==> PipeFresh(p)
    requires Increasing(ps, PipeX)
    ensures var r := Pipes.AdvanceAll(ps);
      && (forall p :: p in r ==> Pipes.Valid(p) && (p.passed <==> Pipes.Behind(p)) && p.x <= ScreenWidth - PipeSpeed)
      && Increasing(r, PipeX)
  {
    var r := Pipes.AdvanceAll(ps);
    forall p | p in r
      ensures Pipes.Valid(p) && (p.passed <==> Pipes.Behind(p)) && p.x <= ScreenWidth - PipeSpeed
    {
      var i :| 0 <= i < |r| && r[i] == p;
      assert ps[i] in ps;
      Pipes.ScoresWhenCrossing(ps[i]);
    }
  }

  lemma MoveKeepsOrder(cs: seq<Coins.Coin>)
    requires forall c :: c in cs ==> Coins.Valid(c) && c.x <= ScreenWidth + PipeWidth
    requires Increasing(cs, CoinX)
    ensures var r := Coins.MoveAll(cs);
      && (forall c :: c in r ==> Coins.Valid(c) && c.x <= ScreenWidth + PipeWidth - PipeSpeed)
      && Increasing(r, CoinX)
  {
    var r := Coins.MoveAll(cs);
    forall c | c in r
      ensures Coins.Valid(c) && c.x <= ScreenWidth + PipeWidth - PipeSpeed
    {
      var i :| 0 <= i < |r| && r[i] == c;
      assert cs[i] in cs;
    }
  }

  /** Every frame that does not end the session keeps the session invariant:
      the angle stays within [-30, 30], the box follows the bird, every pass
      flag says whether its pipe is behind the bird, nothing off screen
      survives the cleanup, and both lists stay in spawn order. */
  lemma StepKeepsValid(s: Session, now: int, flap: bool, gapY: int, spawnCoin: bool)
    requires Valid(s) && MinGapY <= gapY <= MaxGapY
    ensures var o := Step(s, now, flap, gapY, spawnCoin);
      o.Playing? ==> Valid(o.session)
  {
    var o := Step(s, now, flap, gapY, spawnCoin);
    var flapped := if flap then s.(bird := Birds.Flap(s.bird)) else s;
    assert Valid(flapped);
    var f := Prepare(s, now, flap, gapY, spawnCoin);
    assert f.spawned == Spawn(flapped, now, gapY, spawnCoin);
    SpawnKeepsOrder(flapped, now, gapY, spawnCoin);
    AdvanceKeepsOrder(f.spawned.pipes);
    MoveKeepsOrder(f.spawned.coins);
    if o.Playing? {
      var t := o.session;
      var box := f.bird.rect;
      FilterKeepsIncreasing(f.pipes, PipeOnScreen, PipeX);
      FilterKeepsIncreasing(f.coins, MissedBy(box), CoinX);
      FilterKeepsIncreasing(Filter(f.coins, MissedBy(box)), CoinOnScreen, CoinX);
      assert Birds.Valid(t.bird);
    }
  }

  /** The per-frame inputs: the clock reading, whether the flap key was
      pressed, and the two random draws the frame may use. */
  datatype Input = Input(now: int, flap: bool, gapY: int, spawnCoin: bool)

  /** randint(150, SCREEN_HEIGHT - 150) can only produce such gap centres. */
  predicate Feasible(i: Input) {
    MinGapY <= i.gapY <= MaxGapY
  }

  /** The next frame, unless game_loop has already returned. */
  function Next(o: Outcome, i: Input): (r: Outcome)
    requires Feasible(i)
    ensures o.Over? ==> r == o
    ensures r.Score() >= o.Score() && r.CoinCount() >= o.CoinCount()
  {
    match o
    case Over(_, _) => o
    case Playing(t) => Step(t, i.now, i.flap, i.gapY, i.spawnCoin)
  }

  /** Frames run one after another until one ends the session; the inputs
      after that are never read. Score and coin count never go down. */
  function Run(s: Session, inputs: seq<Input>): (o: Outcome)
    requires forall i :: 0 <= i < |inputs| ==> Feasible(inputs[i])
    ensures o.Score() >= s.score && o.CoinCount() >= s.coinsCollected
    decreases |inputs|
  {
    if |inputs| == 0 then Playing(s)
    else
      var k := |inputs| - 1;
      assert Feasible(inputs[k]);
      Next(Run(s, inputs[..k]), inputs[k])
  }

  /** A session that is still running after any number of frames satisfies
      the invariant. */
  lemma {:induction false} RunKeepsValid(s: Session, inputs: seq<Input>)
    requires Valid(s)
    requires forall i :: 0 <= i < |inputs| ==> Feasible(inputs[i])
    ensures Run(s, inputs).Playing? ==> Valid(Run(s, inputs).session)
    decreases |inputs|
  {
    if |inputs| > 0 {
      var k := |inputs| - 1;
      RunKeepsValid(s, inputs[..k]);
      match Run(s, inputs[..k])
      case Over(_, _) =>
      case Playing(t) =>
        StepKeepsValid(t, inputs[k].now, inputs[k].flap, inputs[k].gapY, inputs[k].spawnCoin);
    }
  }

  /** Inputs that never flap; the clock readings and the random draws are
      arbitrary, so pipes and coins may spawn at any frame. */
  predicate NeverFlaps(inputs: seq<Input>) {
    forall i :: 0 <= i < |inputs| ==> Feasible(inputs[i]) && !inputs[i].flap
  }

  /** A pipe that has scrolled at most `k` times since it entered at the
      right edge, and is not passed. */
  predicate PipeFar(p: Pipes.Pipe, k: nat) {
    Pipes.Valid(p) && !p.passed && p.x >= ScreenWidth - PipeSpeed * k
  }

  /** A coin that has scrolled at most `k` times since it entered. */
  predicate CoinFar(c: Coins.Coin, k: nat) {
    Coins.Valid(c) && c.x >= ScreenWidth + PipeWidth - PipeSpeed * k
  }

  /** A never-flapping session `k` frames after the start: the bird has
      fallen freely for `k` frames, nothing was scored or collected, and
      every pipe and coin spawned so far entered at most `k` frames ago. */
  predicate EarlyOn(t: Session, k: nat) {
    && t.bird == Birds.Fall(Birds.NewBird(), k)
    && t.score == 0 && t.coinsCollected == 0
    && (forall p :: p in t.pipes ==> PipeFar(p, k))
    && (forall c :: c in t.coins ==> CoinFar(c, k))
  }

  /** The same facts of a frame that has reached the collision check. */
  predicate EarlyFrame(f: Frame, k: nat) {
    && f.bird == Birds.Fall(Birds.NewBird(), k)
    && f.score == 0 && f.spawned.coinsCollected == 0
    && (forall p :: p in f.pipes ==> PipeFar(p, k))
    && (forall c :: c in f.coins ==> CoinFar(c, k))
  }

  /** Spawning, whatever the clock says, only adds entities at the right
      edge, so an early session stays early. */
  lemma SpawnEarly(t: Session, k: nat, i: Input)
    requires EarlyOn(t, k) && Feasible(i)
    ensures var r := Spawn(t, i.now, i.gapY, i.spawnCoin);
      && r.bird == t.bird && r.coinsCollected == 0
      && (forall p :: p in r.pipes ==> PipeFar(p, k))
      && (forall c :: c in r.coins ==> CoinFar(c, k))
  {
    var r := Spawn(t, i.now, i.gapY, i.spawnCoin);
    if |r.coins| > |t.coins| {
      assert r.coins == t.coins + [r.coins[|t.coins|]];
    } else {
      assert r.coins == t.coins;
    }
  }

  /** In each of the first 49 frames of never flapping, no pass flag can
      flip: every pipe is still at x >= 253 and every coin at x >= 303, far
      from the bird at x = 50. */
  lemma PrepareEarly(t: Session, k: nat, i: Input)
    requires EarlyOn(t, k) && k < 49 && Feasible(i) && !i.flap
    ensures EarlyFrame(Prepare(t, i.now, i.flap, i.gapY, i.spawnCoin), k + 1)
  {
    var f := Prepare(t, i.now, i.flap, i.gapY, i.spawnCoin);
    var sp := f.spawned;
    SpawnEarly(t, k, i);
    forall p | p in f.pipes
      ensures PipeFar(p, k + 1)
    {
      var j :| 0 <= j < |f.pipes| && f.pipes[j] == p;
      assert sp.pipes[j] in sp.pipes;
    }
    forall c | c in f.coins
      ensures CoinFar(c, k + 1)
    {
      var j :| 0 <= j < |f.coins| && f.coins[j] == c;
      assert sp.coins[j] in sp.coins;
    }
    forall j | 0 <= j < |sp.pipes|
      ensures !Pipes.Flipped(sp.pipes[j], f.pipes[j])
    {
      assert f.pipes[j] in f.pipes;
    }
    Pipes.FlipsZeroIff(sp.pipes, f.pipes);
  }

  /** Every pipe and coin of an early frame lies right of the bird's box, so
      nothing is hit and nothing is collected: the session ends exactly when
      the bird leaves the screen, with nothing scored or collected. */
  lemma ResolveEarly(f: Frame, k: nat)
    requires EarlyFrame(f, k) && k <= 49
    ensures var o := Resolve(f);
      if Birds.OutOfBounds(f.bird) then o == Over(0, 0)
      else o.Playing? && EarlyOn(o.session, k)
  {
    var o := Resolve(f);
    var box := f.bird.rect;
    assert box.x == BirdX && box.w == BirdWidth;
    forall j | 0 <= j < |f.pipes|
      ensures !HitsPipe(box, f.pipes[j])
    {
      assert f.pipes[j] in f.pipes;
    }
    forall j | 0 <= j < |f.coins|
      ensures MissedBy(box)(f.coins[j])
    {
      assert f.coins[j] in f.coins;
    }
    FilterIdentityIff(f.coins, MissedBy(box));
    assert !PipeCollision(box, f.pipes);
    assert o.CoinCount() == 0 && o.Score() == 0;
  }

  /** One never-flapping frame from an early session. */
  lemma EarlyStep(t: Session, k: nat, i: Input)
    requires EarlyOn(t, k) && k < 49 && Feasible(i) && !i.flap
    ensures var o := Step(t, i.now, i.flap, i.gapY, i.spawnCoin);
      if k < 48 then o.Playing? && EarlyOn(o.session, k + 1) else o == Over(0, 0)
  {
    var f := Prepare(t, i.now, i.flap, i.gapY, i.spawnCoin);
    PrepareEarly(t, k, i);
    ResolveEarly(f, k + 1);
    Birds.FreeFallLeavesScreen(k + 1);
  }

  /** Never flapping from a fresh start, the session is still early after
      each of the first 48 frames. */
  lemma {:induction false} NoFlapFalls(start: int, inputs: seq<Input>, k: nat)
    requires NeverFlaps(inputs)
    requires k <= |inputs| && k <= 48
    ensures Run(NewSession(start), inputs[..k]).Playing?
    ensures EarlyOn(Run(NewSession(start), inputs[..k]).session, k)
    decreases k
  {
    if k == 0 {
      assert inputs[..0] == [];
    } else {
      NoFlapFalls(start, inputs, k - 1);
      NoFlapNext(NewSession(start), inputs, k, Run(NewSession(start), inputs[..k - 1]).session);
    }
  }

  /** One more never-flapping frame of an early run. */
  lemma NoFlapNext(s: Session, inputs: seq<Input>, k: nat, t: Session)
    requires NeverFlaps(inputs) && 0 < k <= |inputs| && k <= 48
    requires Run(s, inputs[..k - 1]) == Playing(t) && EarlyOn(t, k - 1)
    ensures Run(s, inputs[..k]).Playing? && EarlyOn(Run(s, inputs[..k]).session, k)
  {
    RunExtend(s, inputs, k);
    EarlyStep(t, k - 1, inputs[k - 1]);
  }

  /** One more input runs one more frame, unless the session is already over. */
  lemma RunExtend(s: Session, inputs: seq<Input>, k: nat)
    requires forall i :: 0 <= i < |inputs| ==> Feasible(inputs[i])
    requires 0 < k <= |inputs|
    ensures Feasible(inputs[k - 1])
    ensures Run(s, inputs[..k]) == Next(Run(s, inputs[..k - 1]), inputs[k - 1])
  {
    assert inputs[..k][..k - 1] == inputs[..k - 1];
  }

  /** Never flapping, whenever pipes and coins spawn, the session ends in
      frame 49 when the bird drops below the screen, with score 0 and no
      coins. */
  lemma NoFlapGameOver(start: int, inputs: seq<Input>)
    requires |inputs| == 49
    requires NeverFlaps(inputs)
    ensures Run(NewSession(start), inputs) == Over(0, 0)
  {
    var n := |inputs| - 1;
    NoFlapFalls(start, inputs, n);
    var t := Run(NewSession(start), inputs[..n]).session;
    EarlyStep(t, n, inputs[n]);
    LastFrame(NewSession(start), inputs, t);
  }

  /** A run whose last frame ends the session ends with that frame's result. */
  lemma LastFrame(s: Session, inputs: seq<Input>, t: Session)
    requires NeverFlaps(inputs) && |inputs| > 0
    requires Run(s, inputs[..|inputs| - 1]) == Playing(t)
    ensures var i := inputs[|inputs| - 1];
      Run(s, inputs) == Step(t, i.now, i.flap, i.gapY, i.spawnCoin)
  {
    RunExtend(s, inputs, |inputs|);
    assert inputs[..|inputs|] == inputs;
  }
}
