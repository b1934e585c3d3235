/** The rocks: objects that scroll left, and the list operations on them. */
module Obstacles {
  import opened Config
  import opened Geometry
  import opened RockQueue

  datatype Option<T> = None | Some(value: T)

  class Rock {
    var x: int
    /** rect.y: a rock rests on the ground and never moves vertically. */
    const y: int := GroundHeight - RockSize

    constructor (x: int)
      ensures this.x == x
    {
      this.x := x;
    }

    /** Scrolls the rock left by the obstacle speed; only x changes, and a rock off screen stays off. */
    method Update()
      modifies this
      ensures x == old(x) - ObstacleSpeed
      ensures old(IsOffScreen()) ==> IsOffScreen()
    {
      x := x - ObstacleSpeed;
    }

    /**
     * The rock has left the screen: its left edge is more than its width past
     * 0, so its box ends left of the screen.
     */
    predicate IsOffScreen(): (off: bool)
      reads this
      ensures off <==> x < -RockSize
    {
      OffScreen(x)
    }

    /** The rock's bounding box (the scaled image's rect). */
    function Box(): (r: Rect)
      reads this
      ensures r.x == x && r.y == y && r.w == RockSize && r.h == RockSize
    {
      Rect(x, y, RockSize, RockSize)
    }
  }

  /** The x-position of a new rock: the right edge of the screen unless a position is given. */
  function NewRockX(lastRockX: Option<int>): int {
    match lastRockX
    case None => ScreenWidth
    case Some(x) => x
  }

  /** The x-positions of a list of rocks. */
  function Xs(rocks: seq<Rock>): (xs: seq<int>)
    reads rocks
    ensures |xs| == |rocks|
    ensures forall i :: 0 <= i < |rocks| ==> xs[i] == rocks[i].x
  {
    seq(|rocks|, i requires 0 <= i < |rocks| reads rocks => rocks[i].x)
  }

  lemma XsAppend(a: seq<Rock>, b: seq<Rock>)
    ensures Xs(a + b) == Xs(a) + Xs(b)
  {
  }

  /**
   * The list comprehension that drops off-screen rocks: the rocks it keeps are
   * taken from the list, and their positions are exactly the on-screen ones in
   * the original order.
   */
  function Pruned(rocks: seq<Rock>): (kept: seq<Rock>)
    reads rocks
    ensures forall r :: r in kept ==> r in rocks
    ensures Xs(kept) == Kept(Xs(rocks))
  {
    if rocks == [] then []
    else
      var head := if rocks[0].IsOffScreen() then [] else [rocks[0]];
      var tail := Pruned(rocks[1..]);
      assert Xs(rocks[1..]) == Xs(rocks)[1..];
      assert Kept(Xs(rocks)) == Xs(head) + Kept(Xs(rocks)[1..]);
      XsAppend(head, tail);
      head + tail
  }

  /** Each rock of the list moves once: the loop over the list that calls Rock.update. */
  method UpdateRocks(rocks: seq<Rock>)
    requires forall i, j :: 0 <= i < j < |rocks| ==> rocks[i] != rocks[j]
    modifies rocks
    ensures Xs(rocks) == Moved(old(Xs(rocks)))
  {
    ghost var xs0 := Xs(rocks);
    for i := 0 to |rocks|
      invariant forall j :: 0 <= j < i ==> rocks[j].x == xs0[j] - ObstacleSpeed
      invariant forall j :: i <= j < |rocks| ==> rocks[j].x == xs0[j]
    {
      rocks[i].Update();
    }
    ghost var xs1 := Xs(rocks);
    assert forall j :: 0 <= j < |rocks| ==> xs1[j] == Moved(xs0)[j];
  }
}
