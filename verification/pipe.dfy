/** An obstacle (class Pipe, flappybird2.py lines 69-83): a column of fixed
    width split by a 150-pixel gap into a top and a bottom segment. */
module Pipes {
  import opened Constants
  import opened Rects

  datatype Pipe = Pipe(
    x: int,
    gapY: int,
    width: int,
    topHeight: int,
    bottomHeight: int,
    topRect: Rect,
    bottomRect: Rect,
    passed: bool)

  /** The geometry Pipe.__init__ sets up, at the pipe's current x: the top
      segment hangs from the ceiling down to half a gap above the centre,
      the bottom one starts half a gap below it. */
  predicate Valid(p: Pipe) {
    && MinGapY <= p.gapY <= MaxGapY
    && p.width == PipeWidth
    && p.topHeight == p.gapY - PipeGap / 2
    && p.bottomHeight == ScreenHeight - (p.gapY + PipeGap / 2)
    && p.topRect == Rect(p.x, 0, p.width, p.topHeight)
    && p.bottomRect == Rect(p.x, p.gapY + PipeGap / 2, p.width, p.bottomHeight)
  }

  /** Pipe.__init__ with the random gap centre passed in. The two segments
      and the gap fill the screen height exactly, the gap is exactly PIPE_GAP
      tall, and both segments are at least 75 pixels. */
  function NewPipe(gapY: int): (p: Pipe)
    requires MinGapY <= gapY <= MaxGapY
    ensures Valid(p) && p.x == ScreenWidth && p.gapY == gapY && !p.passed
    ensures p.topHeight + PipeGap + p.bottomHeight == ScreenHeight
    ensures p.bottomRect.y == gapY + PipeGap / 2
    ensures p.bottomRect.y - (p.topRect.y + p.topRect.h) == PipeGap
    ensures p.bottomRect.y + p.bottomRect.h == ScreenHeight
    ensures p.topHeight >= 75 && p.bottomHeight >= 75
    ensures gapY == ScreenHeight / 2 ==> p.topHeight == 225 && p.bottomHeight == 225
  {
    var top := gapY - PipeGap / 2;
    var bottom := ScreenHeight - (gapY + PipeGap / 2);
    Pipe(ScreenWidth, gapY, PipeWidth, top, bottom,
         Rect(ScreenWidth, 0, PipeWidth, top),
         Rect(ScreenWidth, gapY + PipeGap / 2, PipeWidth, bottom),
         false)
  }

  /** Every segment of a well-formed pipe has positive size. */
  lemma ValidSegmentsPositive(p: Pipe)
    requires Valid(p)
    ensures Positive(p.topRect) && Positive(p.bottomRect)
    ensures p.topHeight + PipeGap + p.bottomHeight == ScreenHeight
  {
  }

  /** Pipe.update: scroll left by PIPE_SPEED and carry both boxes along;
      nothing else about the pipe changes. */
  function Move(p: Pipe): (r: Pipe)
    ensures r.x == p.x - PipeSpeed
    ensures r.topRect.x == r.x && r.bottomRect.x == r.x
    ensures r.topRect.(x := p.topRect.x) == p.topRect && r.bottomRect.(x := p.bottomRect.x) == p.bottomRect
    ensures r.gapY == p.gapY && r.width == p.width && r.passed == p.passed
    ensures r.topHeight == p.topHeight && r.bottomHeight == p.bottomHeight
    ensures Valid(p) ==> Valid(r)
  {
    var x := p.x - PipeSpeed;
    p.(x := x, topRect := p.topRect.(x := x), bottomRect := p.bottomRect.(x := x))
  }

  /** The pipe's trailing edge is left of the bird's x. */
  predicate Behind(p: Pipe) {
    p.x + p.width < BirdX
  }

  /** One turn of the update loop for a pipe: move it, then award the pass
      if it has just got behind the bird and was not passed before. The flag
      never goes back, is set exactly when the moved pipe is behind or it was
      already set, and the pipe otherwise moves as Pipe.update says. */
  function Advance(p: Pipe): (r: Pipe)
    ensures r.x == p.x - PipeSpeed
    ensures p.passed ==> r.passed
    ensures r.passed <==> p.passed || Behind(r)
    ensures r.(passed := p.passed) == Move(p)
    ensures Valid(p) ==> Valid(r)
  {
    var m := Move(p);
    if !m.passed && Behind(m) then m.(passed := true) else m
  }

  /** The update loop over the whole list: every pipe scrolls 3 pixels left
      keeping its gap and well-formedness, its flag is set exactly when it
      was already set or the pipe is now behind the bird, and the list keeps
      its length. All pipes scroll by the same amount, so the order by x is
      kept too (Play.AdvanceKeepsOrder). */
  function AdvanceAll(ps: seq<Pipe>): (r: seq<Pipe>)
    ensures |r| == |ps|
    ensures forall i :: 0 <= i < |ps| ==>
      && r[i].x == ps[i].x - PipeSpeed && r[i].gapY == ps[i].gapY
      && (r[i].passed <==> ps[i].passed || Behind(r[i]))
      && (Valid(ps[i]) ==> Valid(r[i]))
    ensures forall i :: 0 <= i < |ps| ==> r[i] == Advance(ps[i])
  {
    seq(|ps|, i requires 0 <= i < |ps| => Advance(ps[i]))
  }

  /** The pass flag went from false to true. */
  predicate Flipped(before: Pipe, after: Pipe) {
    !before.passed && after.passed
  }

  /** How many flags flipped between two pipe lists of the same length. */
  function Flips(before: seq<Pipe>, after: seq<Pipe>): (n: nat)
    requires |before| == |after|
    ensures n <= |before|
    decreases |before|
  {
    if |before| == 0 then 0
    else
      var k := |before| - 1;
      Flips(before[..k], after[..k]) + (if Flipped(before[k], after[k]) then 1 else 0)
  }

  /** A reference count over the pipes before the frame: those not yet
      passed whose trailing edge will be left of the bird once moved. */
  function NewlyBehind(ps: seq<Pipe>): nat
    decreases |ps|
  {
    if |ps| == 0 then 0
    else
      var k := |ps| - 1;
      NewlyBehind(ps[..k]) + (if !ps[k].passed && Behind(Move(ps[k])) then 1 else 0)
  }

  /** The update loop scores exactly the pipes that were unpassed and get
      behind the bird in this frame. */
  lemma {:induction false} FlipsCountsNewlyBehind(ps: seq<Pipe>)
    ensures Flips(ps, AdvanceAll(ps)) == NewlyBehind(ps)
    ensures forall i :: 0 <= i < |ps| ==>
      (Flipped(ps[i], AdvanceAll(ps)[i]) <==> !ps[i].passed && Behind(Move(ps[i])))
    decreases |ps|
  {
    if |ps| > 0 {
      var k := |ps| - 1;
      FlipsCountsNewlyBehind(ps[..k]);
      assert AdvanceAll(ps)[..k] == AdvanceAll(ps[..k]);
      var r := Advance(ps[k]);
      assert r.(passed := ps[k].passed) == Move(ps[k]);
      assert Flipped(ps[k], r) <==> !ps[k].passed && Behind(Move(ps[k]));
    }
  }

  /** A pipe that has just entered at the right edge scores nothing in its
      first frame. */
  lemma NewPipeNotBehind(ps: seq<Pipe>, gapY: int)
    requires MinGapY <= gapY <= MaxGapY
    ensures NewlyBehind(ps + [NewPipe(gapY)]) == NewlyBehind(ps)
  {
    assert (ps + [NewPipe(gapY)])[..|ps|] == ps;
  }

  /** The update-and-score loop of game_loop, statement for statement: each
      pipe is moved and, when it is newly behind the bird, scored and flagged.
      The result is the frame's pipe list, and the score rises by exactly the
      number of flags that flipped. */
  method UpdateAndScore(pipes: seq<Pipe>, score: nat) returns (moved: seq<Pipe>, newScore: nat)
    ensures moved == AdvanceAll(pipes)
    ensures newScore == score + Flips(pipes, moved)
  {
    moved := [];
    newScore := score;
    var i := 0;
    while i < |pipes|
      invariant 0 <= i <= |pipes|
      invariant |moved| == i && forall j :: 0 <= j < i ==> moved[j] == Advance(pipes[j])
      invariant newScore == score + Flips(pipes[..i], moved)
    {
      var before := pipes[i];
      var p := Move(before);
      if !p.passed && p.x + p.width < BirdX {
        newScore := newScore + 1;
        p := p.(passed := true);
      }
      assert p == Advance(before);
      assert pipes[..i + 1] == pipes[..i] + [before];
      FlipsSnoc(pipes[..i], moved, before, p);
      moved := moved + [p];
      i := i + 1;
    }
    assert pipes[..i] == pipes;
    AdvanceAllUnique(pipes, moved);
  }

  /** A list that advances every pipe is the advanced list. */
  lemma AdvanceAllUnique(ps: seq<Pipe>, r: seq<Pipe>)
    requires |r| == |ps| && forall j :: 0 <= j < |ps| ==> r[j] == Advance(ps[j])
    ensures r == AdvanceAll(ps)
  {
  }

  lemma FlipsSnoc(before: seq<Pipe>, after: seq<Pipe>, b: Pipe, a: Pipe)
    requires |before| == |after|
    ensures Flips(before + [b], after + [a]) == Flips(before, after) + (if Flipped(b, a) then 1 else 0)
  {
    assert (before + [b])[..|before|] == before;
    assert (after + [a])[..|after|] == after;
  }

  /** Pipes that were all passed before the frame earn nothing in it. */
  lemma {:induction false} PassedEarnNothing(before: seq<Pipe>, after: seq<Pipe>)
    requires |before| == |after|
    requires forall i :: 0 <= i < |before| ==> before[i].passed
    ensures Flips(before, after) == 0
    decreases |before|
  {
    if |before| > 0 {
      var k := |before| - 1;
      PassedEarnNothing(before[..k], after[..k]);
    }
  }

  /** No point is earned exactly when no flag flips. */
  lemma {:induction false} FlipsZeroIff(before: seq<Pipe>, after: seq<Pipe>)
    requires |before| == |after|
    ensures Flips(before, after) == 0 <==> forall i :: 0 <= i < |before| ==> !Flipped(before[i], after[i])
    decreases |before|
  {
    if |before| > 0 {
      var k := |before| - 1;
      FlipsZeroIff(before[..k], after[..k]);
      assert forall i :: 0 <= i < k ==> before[..k][i] == before[i] && after[..k][i] == after[i];
    }
  }

  /** `k` frames of updates. */
  function AdvanceN(p: Pipe, k: nat): Pipe
    decreases k
  {
    if k == 0 then p else Advance(AdvanceN(p, k - 1))
  }

  /** The points one pipe earns over `k` frames. */
  function LifetimeFlips(p: Pipe, k: nat): nat
    decreases k
  {
    if k == 0 then 0
    else LifetimeFlips(p, k - 1) + (if Flipped(AdvanceN(p, k - 1), AdvanceN(p, k)) then 1 else 0)
  }

  /** A pipe scores at most once over any number of frames: exactly once if
      it started unpassed and is passed at the end, never otherwise. */
  lemma {:induction false} ScoresOnce(p: Pipe, k: nat)
    ensures LifetimeFlips(p, k) == (if !p.passed && AdvanceN(p, k).passed then 1 else 0)
    decreases k
  {
    if k > 0 {
      ScoresOnce(p, k - 1);
      if AdvanceN(p, k - 1).passed {
        assert AdvanceN(p, k).passed;
      }
      if p.passed {
        PassedStays(p, k - 1);
      }
    }
  }

  lemma {:induction false} PassedStays(p: Pipe, k: nat)
    requires p.passed
    ensures AdvanceN(p, k).passed
    decreases k
  {
    if k > 0 {
      PassedStays(p, k - 1);
    }
  }

  /** For a pipe whose flag agrees with its position (the game keeps them in
      step), the frame that flips the flag is exactly the frame in which the
      trailing edge crosses the bird's x. */
  lemma ScoresWhenCrossing(p: Pipe)
    requires p.passed <==> Behind(p)
    ensures Flipped(p, Advance(p)) <==> !Behind(p) && Behind(Advance(p))
    ensures Advance(p).passed <==> Behind(Advance(p))
  {
  }
}
