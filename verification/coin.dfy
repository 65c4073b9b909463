/** A bonus coin (class Coin, flappybird2.py lines 94-102): a fixed y, a
    scrolling x and a 40x40 collision box anchored at (x, y), larger than the
    30-pixel sprite. */
module Coins {
  import opened Constants
  import opened Rects
  import Pipes

  datatype Coin = Coin(x: int, y: int, rect: Rect)

  /** The box sits at the coin's position with side COIN_SIZE + 10. */
  predicate Valid(c: Coin) {
    c.rect == Rect(c.x, c.y, CoinBox, CoinBox)
  }

  /** Coin.__init__ */
  function NewCoin(x: int, y: int): (c: Coin)
    ensures Valid(c) && c.x == x && c.y == y
    ensures Positive(c.rect)
  {
    Coin(x, y, Rect(x, y, CoinBox, CoinBox))
  }

  /** Coin.update: scroll left at the pipes' speed; the box follows and the
      height stays put. */
  function Move(c: Coin): (r: Coin)
    ensures r.x == c.x - PipeSpeed && r.rect.x == r.x
    ensures r.y == c.y && r.rect.(x := c.rect.x) == c.rect
    ensures Valid(c) ==> Valid(r)
  {
    var x := c.x - PipeSpeed;
    c.(x := x, rect := c.rect.(x := x))
  }

  /** The coin update loop: every coin scrolls 3 pixels left at its height,
      stays well-formed, and the list keeps its length; the order by x is
      kept too (Play.MoveKeepsOrder). */
  function MoveAll(cs: seq<Coin>): (r: seq<Coin>)
    ensures |r| == |cs|
    ensures forall i :: 0 <= i < |cs| ==>
      r[i].x == cs[i].x - PipeSpeed && r[i].y == cs[i].y && (Valid(cs[i]) ==> Valid(r[i]))
    ensures forall i :: 0 <= i < |cs| ==> r[i] == Move(cs[i])
  {
    seq(|cs|, i requires 0 <= i < |cs| => Move(cs[i]))
  }

  /** The coin that may come with a freshly spawned pipe: just right of the
      pipe, a quarter gap above its centre. Its box lies wholly inside the
      pipe's gap, so it touches neither segment wherever the two scroll to. */
  function SpawnFor(p: Pipes.Pipe): (c: Coin)
    requires Pipes.Valid(p)
    ensures Valid(c)
    ensures c.x == ScreenWidth + p.width && c.y == p.gapY - PipeGap / 4
    ensures p.topRect.y + p.topRect.h <= c.rect.y && c.rect.y + c.rect.h <= p.bottomRect.y
    ensures forall x :: !Collide(c.rect.(x := x), p.topRect) && !Collide(c.rect.(x := x), p.bottomRect)
  {
    NewCoin(ScreenWidth + p.width, p.gapY - PipeGap / 4)
  }
}
